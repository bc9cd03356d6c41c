/** The API types of `api/v1/ptpconfig_types.go` and the node fields the selection reads. */
module PtpTypes {
  import opened Prelude

  datatype ClockThreshold = ClockThreshold(holdOver: Int64, maxOffset: Int64, minOffset: Int64)

  /** `PtpProfile`; a plugin is its raw JSON text, absent when the pointer is nil. */
  datatype Profile = Profile(
    name: Option<string>,
    iface: Option<string>,
    ptp4lOpts: Option<string>,
    phc2sysOpts: Option<string>,
    ts2phcOpts: Option<string>,
    synce4lOpts: Option<string>,
    ptp4lConf: Option<string>,
    phc2sysConf: Option<string>,
    ts2phcConf: Option<string>,
    synce4lConf: Option<string>,
    schedulingPolicy: Option<string>,
    schedulingPriority: Option<Int64>,
    clockThreshold: Option<ClockThreshold>,
    settings: Option<map<string, string>>,
    plugins: Option<map<string, Option<string>>>)

  datatype MatchRule = MatchRule(nodeLabel: Option<string>, nodeName: Option<string>)

  datatype PtpRecommend = PtpRecommend(profile: Option<string>, priority: Option<Int64>, rules: seq<MatchRule>)

  datatype PtpConfig = PtpConfig(
    namespace: string,
    name: string,
    profiles: seq<Profile>,
    recommends: seq<PtpRecommend>)

  datatype Node = Node(name: string, labels: map<string, string>)
}
