/** The values that travel between the parts of the mesh: node records, match criteria and
    routing rules. */
module MeshTypes {

  datatype Option<+T> = None | Some(value: T)

  /** A status is a string in the program; every string other than the three known ones is `Unknown`. */
  datatype NodeStatus = Online | Busy | Offline | Unknown(text: string)

  predicate ValidNodeStatus(s: NodeStatus) {
    !s.Unknown?
  }

  /** What never changes after registration. */
  datatype Profile = Profile(
    id: string, name: string, endpoint: string, os: string, arch: string, gpu: bool, memoryGb: int)

  /** What one node record says at one moment. */
  datatype NodeInfo = NodeInfo(
    profile: Profile, tags: seq<string>, skills: seq<string>, status: NodeStatus, lastHeartbeat: int)

  /** `gpu` and `wildcard` are optional booleans (pointers in the program). */
  datatype MatchCriteria = MatchCriteria(gpu: Option<bool>, os: string, skill: string, wildcard: Option<bool>)

  const ANY_NODE := MatchCriteria(None, "", "", None)

  datatype RoutingRule = RoutingRule(id: string, criteria: MatchCriteria, target: string, strategy: string)

  predicate IsWildcard(mc: MatchCriteria) {
    mc.wildcard == Some(true)
  }

  /** True if the node advertises `skill` as a skill or as a tag. */
  predicate HasSkill(n: NodeInfo, skill: string) {
    skill in n.skills || skill in n.tags
  }

  predicate MatchesCriteria(mc: MatchCriteria, n: NodeInfo) {
    && (mc.gpu == Some(true) ==> n.profile.gpu)
    && (mc.os != "" ==> mc.os == n.profile.os)
    && (mc.skill != "" ==> HasSkill(n, mc.skill))
  }
}
