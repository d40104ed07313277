/** Waiting for enough cluster members before the store is used. */
module Join {
  import opened Model

  /** The Olric configuration. Intervals are in nanoseconds. */
  datatype Config = Config(bindAddr: string, bindPort: int, advertiseAddr: string, advertisePort: int,
                           memberlistBindPort: int, joinAddrs: seq<string>, replicationMode: string,
                           replicationFactor: int, partitionCount: nat, backupCount: int, backupMode: string,
                           memberCountQuorum: int, joinRetryInterval: int, maxJoinAttempts: int, logLevel: string,
                           keepAlivePeriod: int, requestTimeout: int, dmapName: string)
  {
    predicate IsSingleNode() { joinAddrs == [] }

    /** The checks in their order, the first that fails being reported. `isIP` is what parsing
        an address says. Accepted is exactly what has a usable network, sound settings for
        storage and logging, and a wait that can come to an end. */
    function Validate(isIP: string -> bool): (r: Option<ConfigError>)
      ensures r.None? <==>
        && bindAddr != "" && isIP(bindAddr) && 1 <= bindPort <= 65535
        && (advertiseAddr != "" ==> isIP(advertiseAddr)) && (advertisePort != 0 ==> 1 <= advertisePort <= 65535)
        && (memberlistBindPort != 0 ==> 1 <= memberlistBindPort <= 65535)
        && keepAlivePeriod > 0 && requestTimeout > 0
        && replicationMode in {"sync", "async"} && backupMode in {"sync", "async"}
        && logLevel in {"DEBUG", "INFO", "WARN", "ERROR"}
        && partitionCount >= 1 && backupCount >= 0 && dmapName != ""
        && joinRetryInterval > 0 && maxJoinAttempts >= 1
        && if joinAddrs == [] then replicationFactor >= 1 && memberCountQuorum == 1
           else replicationFactor >= 2 && memberCountQuorum >= 1
    {
      if bindAddr == "" then Some(BindAddrEmpty)
      else if !isIP(bindAddr) then Some(BindAddrNotIP)
      else if bindPort < 1 || bindPort > 65535 then Some(BindPortRange)
      else if advertiseAddr != "" && !isIP(advertiseAddr) then Some(AdvertiseAddrNotIP)
      else if advertisePort != 0 && (advertisePort < 1 || advertisePort > 65535) then Some(AdvertisePortRange)
      else if memberlistBindPort != 0 && (memberlistBindPort < 1 || memberlistBindPort > 65535)
      then Some(MemberlistPortRange)
      else if replicationMode != "sync" && replicationMode != "async" then Some(ReplicationMode)
      else if replicationFactor < 1 then Some(ReplicationFactor)
      else if partitionCount < 1 then Some(PartitionCount)
      else if backupCount < 0 then Some(BackupCount)
      else if backupMode != "sync" && backupMode != "async" then Some(BackupMode)
      else if memberCountQuorum < 1 then Some(MemberCountQuorum)
      else if joinRetryInterval <= 0 then Some(JoinRetryInterval)
      else if maxJoinAttempts < 1 then Some(MaxJoinAttempts)
      else if logLevel !in LOG_LEVELS then Some(LogLevel)
      else if keepAlivePeriod <= 0 then Some(KeepAlivePeriod)
      else if requestTimeout <= 0 then Some(RequestTimeout)
      else if dmapName == "" then Some(DMapName)
      else if memberCountQuorum > 1 && |joinAddrs| == 0 then Some(NoJoinAddrs)
      else if |joinAddrs| > 0 && replicationFactor < 2 then Some(TooFewReplicas)
      else None
    }
  }

  /** A reported error is one that the configuration has. */
  lemma ErrorIsReal(c: Config, isIP: string -> bool)
    ensures match c.Validate(isIP)
      case None => true
      case Some(BindAddrEmpty) => c.bindAddr == ""
      case Some(BindAddrNotIP) => !isIP(c.bindAddr)
      case Some(BindPortRange) => !(1 <= c.bindPort <= 65535)
      case Some(AdvertiseAddrNotIP) => c.advertiseAddr != "" && !isIP(c.advertiseAddr)
      case Some(AdvertisePortRange) => c.advertisePort != 0 && !(1 <= c.advertisePort <= 65535)
      case Some(MemberlistPortRange) => c.memberlistBindPort != 0 && !(1 <= c.memberlistBindPort <= 65535)
      case Some(ReplicationMode) => c.replicationMode !in {"sync", "async"}
      case Some(ReplicationFactor) => c.replicationFactor < 1
      case Some(PartitionCount) => c.partitionCount == 0
      case Some(BackupCount) => c.backupCount < 0
      case Some(BackupMode) => c.backupMode !in {"sync", "async"}
      case Some(MemberCountQuorum) => c.memberCountQuorum < 1
      case Some(JoinRetryInterval) => c.joinRetryInterval <= 0
      case Some(MaxJoinAttempts) => c.maxJoinAttempts < 1
      case Some(LogLevel) => c.logLevel !in {"DEBUG", "INFO", "WARN", "ERROR"}
      case Some(KeepAlivePeriod) => c.keepAlivePeriod <= 0
      case Some(RequestTimeout) => c.requestTimeout <= 0
      case Some(DMapName) => c.dmapName == ""
      case Some(NoJoinAddrs) => c.memberCountQuorum > 1 && c.joinAddrs == []
      case Some(TooFewReplicas) => c.joinAddrs != [] && c.replicationFactor < 2
  {
  }

  const LOG_LEVELS := {"DEBUG", "INFO", "WARN", "ERROR"}

  datatype ConfigError =
    | BindAddrEmpty | BindAddrNotIP | BindPortRange | AdvertiseAddrNotIP | AdvertisePortRange | MemberlistPortRange
    | ReplicationMode | ReplicationFactor | PartitionCount | BackupCount | BackupMode
    | MemberCountQuorum | JoinRetryInterval | MaxJoinAttempts | LogLevel | KeepAlivePeriod | RequestTimeout | DMapName
    | NoJoinAddrs | TooFewReplicas

  /** What one round of the wait delivers: the context's end, or a tick and the answer of the
      member query then made, if it was answered. */
  datatype Poll = Cancelled | Tick(members: Option<nat>)

  type Polls = nat -> Poll

  datatype Result = Ready | ContextDone | AttemptsExhausted(members: nat)

  /** A query that fails counts no members. */
  predicate Reaches(c: Config, poll: Poll) {
    poll.Tick? && if poll.members.Some? then poll.members.value >= c.memberCountQuorum else c.memberCountQuorum <= 0
  }

  predicate Below(c: Config, poll: Poll) { poll.Tick? && !Reaches(c, poll) }

  predicate LastCount(poll: Poll, members: nat) {
    poll.Tick? && if poll.members.Some? then members == poll.members.value else members == 0
  }

  ghost predicate AllBelow(c: Config, polls: Polls, n: nat) {
    forall j: nat :: j < n ==> Below(c, polls(j))
  }

  /** The wait ends with result `r` after `n` rounds. */
  ghost predicate Ends(c: Config, polls: Polls, n: nat, r: Result) {
    if c.IsSingleNode() then n == 0 && r == Ready else
      n > 0 && AllBelow(c, polls, n - 1)
      && match r
         case Ready => Reaches(c, polls(n - 1))
         case ContextDone => polls(n - 1).Cancelled?
         case AttemptsExhausted(m) => Below(c, polls(n - 1)) && n >= c.maxJoinAttempts && LastCount(polls(n - 1), m)
  }

  /** The wait goes on past `n` rounds only while attempts are left. */
  method WaitForCluster(c: Config, polls: Polls) returns (r: Result, rounds: nat)
    requires c.joinRetryInterval > 0
    ensures Ends(c, polls, rounds, r)
    ensures c.joinAddrs == [] ==> r == Ready && rounds == 0
    ensures c.joinAddrs != [] ==> 1 <= rounds && (rounds <= c.maxJoinAttempts || rounds == 1)
    ensures forall k: nat :: k < rounds - 1 ==>
      polls(k).Tick? && (if polls(k).members.Some? then polls(k).members.value else 0) < c.memberCountQuorum
    ensures c.joinAddrs != [] ==>
      match (r, polls(rounds - 1))
      case (ContextDone, Cancelled) => true
      case (Ready, Tick(Some(members))) => members >= c.memberCountQuorum
      case (Ready, Tick(None)) => 0 >= c.memberCountQuorum
      case (AttemptsExhausted(m), Tick(Some(members))) =>
        m == members < c.memberCountQuorum && rounds >= c.maxJoinAttempts
      case (AttemptsExhausted(m), Tick(None)) => m == 0 < c.memberCountQuorum && rounds >= c.maxJoinAttempts
      case _ => false
  {
    if c.IsSingleNode() {
      return Ready, 0;
    }
    var attempts := 0;
    rounds := 0;
    while true
      invariant attempts == rounds && AllBelow(c, polls, rounds)
      invariant rounds > 0 ==> rounds < c.maxJoinAttempts
      decreases c.maxJoinAttempts - attempts
    {
      var poll := polls(rounds);
      rounds := rounds + 1;
      if poll.Cancelled? {
        return ContextDone, rounds;
      }
      attempts := attempts + 1;
      var memberCount := if poll.members.Some? then poll.members.value else 0;
      if memberCount >= c.memberCountQuorum {
        return Ready, rounds;
      }
      assert Below(c, poll);
      if attempts >= c.maxJoinAttempts {
        return AttemptsExhausted(memberCount), rounds;
      }
    }
  }

  /** A validated multi-node wait that is not cancelled is over within the configured number
      of attempts: it succeeds exactly if some query within them is answered with the quorum,
      then at the first such answer, and it gives up only after exactly that many queries, with
      the last answer, or 0 if the last query failed. */
  lemma WaitIsExact(c: Config, isIP: string -> bool, polls: Polls, n: nat, r: Result)
    requires c.Validate(isIP).None? && !c.IsSingleNode()
    requires Ends(c, polls, n, r) && n <= c.maxJoinAttempts
    requires forall j: nat :: j < c.maxJoinAttempts ==> polls(j).Tick?
    ensures r.Ready? <==>
      exists k: nat :: k < c.maxJoinAttempts && polls(k).members.Some? && polls(k).members.value >= c.memberCountQuorum
    ensures r.Ready? ==>
      && n > 0 && polls(n - 1).members.Some? && polls(n - 1).members.value >= c.memberCountQuorum
      && forall k: nat :: k < n - 1 && polls(k).members.Some? ==> polls(k).members.value < c.memberCountQuorum
    ensures r.Ready? || r.AttemptsExhausted?
    ensures r.AttemptsExhausted? ==>
      && n == c.maxJoinAttempts
      && r.members == match polls(n - 1).members case Some(members) => members case None => 0
  {
    assert polls(n - 1).Tick?;
    assert forall k: nat :: k < n - 1 ==> Below(c, polls(k));
  }

  /** The result is determined by the polls: no two ways for one wait to end. */
  lemma WaitIsDetermined(c: Config, isIP: string -> bool, polls: Polls, n: nat, r: Result, n': nat, r': Result)
    requires c.Validate(isIP).None? && Ends(c, polls, n, r) && Ends(c, polls, n', r')
    requires n <= c.maxJoinAttempts && n' <= c.maxJoinAttempts
    ensures n == n' && r == r'
  {
  }

  /** A validated single node needs one member, itself: the immediate return is what the loop
      would come to at its first count. */
  lemma SingleNodeAgrees(c: Config, isIP: string -> bool, polls: Polls)
    requires c.Validate(isIP).None? && c.IsSingleNode()
    requires polls(0).Tick? && polls(0).members.Some? && polls(0).members.value >= 1
    ensures Ends(c, polls, 0, Ready)
    ensures forall addr :: Ends(c.(joinAddrs := [addr]), polls, 1, Ready)
  {
  }
}
