/** How many connections each address has open (ConnectionManager in src/connection.cpp). */
module ConnectionCounts {
  type Conn = nat
  type Ip = nat

  /** `trackedIp` is the field of the connection objects; 0, or no entry, is "not counted". */
  datatype State = State(connections: set<Conn>, ipConnectionCount: map<Ip, nat>, trackedIp: map<Conn, Ip>)

  ghost function From(s: State, ip: Ip): (r: set<Conn>) {
    set c | c in s.connections && c in s.trackedIp && s.trackedIp[c] == ip
  }

  function CountFor(s: State, ip: Ip): (n: nat) {
    if ip in s.ipConnectionCount then s.ipConnectionCount[ip] else 0
  }

  function TrackedIp(s: State, c: Conn): (ip: Ip) {
    if c in s.trackedIp then s.trackedIp[c] else 0
  }

  /** The table holds, for each address, the number of its open connections, and no zero entry. */
  ghost predicate Inv(s: State) {
    && (forall ip :: ip != 0 ==> CountFor(s, ip) == |From(s, ip)|)
    && (forall ip :: ip in s.ipConnectionCount ==> ip != 0 && s.ipConnectionCount[ip] > 0)
    && forall c :: c in s.trackedIp ==> s.trackedIp[c] != 0
  }

  datatype Step =
    | Create(c: Conn, maximum: int)
    | Release(c: Conn)
    | Track(c: Conn, ip: Ip, limit: int)
    | CloseAll

  /** A new object is none of the earlier ones. */
  predicate Enabled(s: State, e: Step) {
    e.Create? ==> e.c !in s.connections && e.c !in s.trackedIp
  }

  function Created(s: State, c: Conn, maximum: int): (r: State) {
    if maximum > 0 && |s.connections| >= maximum then s else s.(connections := s.connections + {c})
  }

  function Released(s: State, c: Conn): (r: State) {
    if c !in s.connections then s
    else
      var t := s.(connections := s.connections - {c});
      var ip := TrackedIp(s, c);
      if ip == 0 || ip !in s.ipConnectionCount then t
      else if s.ipConnectionCount[ip] <= 1 then t.(ipConnectionCount := s.ipConnectionCount - {ip})
      else t.(ipConnectionCount := s.ipConnectionCount[ip := s.ipConnectionCount[ip] - 1])
  }

  /** Whether trackIPConnection counts the connection. */
  predicate Admits(s: State, c: Conn, ip: Ip, limit: int) {
    && ip != 0 && c in s.connections && TrackedIp(s, c) == 0
    && (limit > 0 ==> CountFor(s, ip) < limit)
  }

  function Tracked(s: State, c: Conn, ip: Ip, limit: int): (r: State) {
    if Admits(s, c, ip, limit) then
      s.(trackedIp := s.trackedIp[c := ip], ipConnectionCount := s.ipConnectionCount[ip := CountFor(s, ip) + 1])
    else s
  }

  function Next(s: State, e: Step): (r: State) {
    match e
    case Create(c, maximum) => Created(s, c, maximum)
    case Release(c) => Released(s, c)
    case Track(c, ip, limit) => Tracked(s, c, ip, limit)
    case CloseAll => s.(connections := {}, ipConnectionCount := map[])
  }

  lemma CreateKeeps(s: State, c: Conn, maximum: int)
    requires Inv(s) && Enabled(s, Create(c, maximum))
    ensures Inv(Created(s, c, maximum))
  {
    assert forall ip :: From(Created(s, c, maximum), ip) == From(s, ip);
  }

  /** The one set a release touches. */
  lemma ReleaseFrom(s: State, c: Conn, ip: Ip)
    requires Inv(s) && ip != 0
    ensures From(Released(s, c), ip) == From(s, ip) - {c}
    ensures |From(Released(s, c), ip)| == |From(s, ip)| - if c in s.connections && TrackedIp(s, c) == ip then 1 else 0
  {
    assert From(Released(s, c), ip) == From(s, ip) - {c};
    if c in s.connections && TrackedIp(s, c) == ip {
      assert c in From(s, ip);
    } else {
      assert From(s, ip) - {c} == From(s, ip);
    }
  }

  lemma ReleaseKeeps(s: State, c: Conn)
    requires Inv(s)
    ensures Inv(Released(s, c))
  {
    var r := Released(s, c);
    forall ip | ip != 0 ensures CountFor(r, ip) == |From(r, ip)| {
      ReleaseFrom(s, c, ip);
      assert CountFor(s, ip) == |From(s, ip)|;
    }
  }

  lemma TrackFrom(s: State, c: Conn, ip: Ip, limit: int, a: Ip)
    requires Inv(s) && Admits(s, c, ip, limit) && a != 0
    ensures |From(Tracked(s, c, ip, limit), a)| == |From(s, a)| + if a == ip then 1 else 0
  {
    var r := Tracked(s, c, ip, limit);
    assert c !in s.trackedIp;
    if a == ip {
      assert From(r, a) == From(s, a) + {c};
    } else {
      assert From(r, a) == From(s, a);
    }
  }

  lemma TrackKeeps(s: State, c: Conn, ip: Ip, limit: int)
    requires Inv(s)
    ensures Inv(Tracked(s, c, ip, limit))
  {
    if Admits(s, c, ip, limit) {
      var r := Tracked(s, c, ip, limit);
      forall a | a != 0 ensures CountFor(r, a) == |From(r, a)| {
        TrackFrom(s, c, ip, limit, a);
        assert CountFor(s, a) == |From(s, a)|;
      }
    }
  }

  lemma NextKeeps(s: State, e: Step)
    requires Inv(s) && Enabled(s, e)
    ensures Inv(Next(s, e))
  {
    match e {
      case Create(c, maximum) => CreateKeeps(s, c, maximum);
      case Release(c) => ReleaseKeeps(s, c);
      case Track(c, ip, limit) => TrackKeeps(s, c, ip, limit);
      case CloseAll => assert forall ip :: From(Next(s, e), ip) == {};
    }
  }

  /** A new connection is kept unless a positive maximum of connections is reached. */
  lemma CreateExact(s: State, c: Conn, maximum: int)
    requires Enabled(s, Create(c, maximum))
    ensures var r := Created(s, c, maximum);
            && r == s.(connections := r.connections)
            && (maximum <= 0 || |s.connections| < maximum ==> r.connections == s.connections + {c})
            && (0 < maximum <= |s.connections| ==> r == s)
  {
  }

  /** A connection is counted for its address, once, if it is listed and the address is below its limit. */
  lemma TrackExact(s: State, c: Conn, ip: Ip, limit: int)
    requires Inv(s)
    ensures var r := Tracked(s, c, ip, limit);
            if ip != 0 && c in s.connections && c !in s.trackedIp && (limit <= 0 || |From(s, ip)| < limit) then
              r.connections == s.connections && r.trackedIp == s.trackedIp[c := ip]
            else r == s
  {
    assert ip != 0 ==> CountFor(s, ip) == |From(s, ip)|;
  }

  /** A release takes exactly this connection off the list, and closeAll every one. */
  lemma ReleaseExact(s: State, c: Conn)
    ensures Released(s, c).connections == s.connections - {c} && Released(s, c).trackedIp == s.trackedIp
    ensures Next(s, CloseAll).connections == {} && Next(s, CloseAll).trackedIp == s.trackedIp
  {
  }

  /** Under a fixed positive maximum there are never more connections than that. */
  lemma {:induction false} WithinMaximum(states: seq<State>, steps: seq<Step>, k: nat, maximum: int)
    requires Run(states, steps) && k <= |steps| && maximum > 0
    requires forall i :: 0 <= i < k && steps[i].Create? ==> steps[i].maximum == maximum
    ensures |states[k].connections| <= maximum
  {
    if k > 0 {
      WithinMaximum(states, steps, k - 1, maximum);
      var s, e := states[k - 1], steps[k - 1];
      assert states[k - 1 + 1] == Next(s, e);
      match e {
        case Create(c, m) => CreateExact(s, c, m);
        case Release(c) =>
          ReleaseExact(s, c);
          FewerLeft(s.connections, c);
        case _ =>
      }
    }
  }

  lemma FewerLeft(s: set<Conn>, c: Conn)
    ensures |s - {c}| <= |s|
  {
    if c !in s {
      assert s - {c} == s;
    }
  }

  const INITIAL := State({}, map[], map[])

  ghost predicate Run(states: seq<State>, steps: seq<Step>) {
    && |states| == |steps| + 1 && states[0] == INITIAL
    && forall k :: 0 <= k < |steps| ==> Enabled(states[k], steps[k]) && states[k + 1] == Next(states[k], steps[k])
  }

  /**
   In every run the table agrees with the connections that are open, so a released connection is
   taken off exactly once however often it is released; and under a fixed positive limit no address
   ever has more open counted connections than that.
   */
  lemma {:induction false} RunKeeps(states: seq<State>, steps: seq<Step>, k: nat, limit: int)
    requires Run(states, steps) && k <= |steps|
    ensures Inv(states[k])
    ensures limit > 0 && (forall i :: 0 <= i < k && steps[i].Track? ==> steps[i].limit == limit) ==>
              forall ip :: ip != 0 ==> |From(states[k], ip)| <= limit
  {
    if k == 0 {
      assert forall ip :: From(INITIAL, ip) == {};
    } else {
      RunKeeps(states, steps, k - 1, limit);
      NextKeeps(states[k - 1], steps[k - 1]);
      assert states[k - 1 + 1] == Next(states[k - 1], steps[k - 1]);
      var s, r := states[k - 1], states[k];
      if limit > 0 && (forall i :: 0 <= i < k && steps[i].Track? ==> steps[i].limit == limit) {
        forall ip | ip != 0 ensures |From(r, ip)| <= limit {
          assert CountFor(s, ip) == |From(s, ip)| && CountFor(r, ip) == |From(r, ip)|;
        }
      }
    }
  }

  class ConnectionManager {
    var connections: set<Conn>
    var ipConnectionCount: map<Ip, nat>
    var trackedIp: map<Conn, Ip>

    ghost function View(): (s: State)
      reads this
    {
      State(connections, ipConnectionCount, trackedIp)
    }

    constructor ()
      ensures View() == INITIAL
    {
      connections, ipConnectionCount, trackedIp := {}, map[], map[];
    }

    method ReleaseConnection(c: Conn)
      modifies this
      ensures View() == Released(old(View()), c)
    {
      if c !in connections {
        return;
      }
      connections := connections - {c};
      var ip := if c in trackedIp then trackedIp[c] else 0;
      if ip != 0 && ip in ipConnectionCount {
        if ipConnectionCount[ip] <= 1 {
          ipConnectionCount := ipConnectionCount - {ip};
        } else {
          ipConnectionCount := ipConnectionCount[ip := ipConnectionCount[ip] - 1];
        }
      }
    }

    method TrackIPConnection(c: Conn, ip: Ip, limit: int) returns (ok: bool, currentCount: nat)
      requires Inv(View())
      modifies this
      ensures View() == Tracked(old(View()), c, ip, limit) && Inv(View())
      ensures ok == Admits(old(View()), c, ip, limit)
      ensures ok ==> currentCount == |From(View(), ip)|
      ensures !ok ==> currentCount == if ip != 0 && c in connections &&
              TrackedIp(View(), c) == 0 then |From(View(), ip)| else 0
    {
      NextKeeps(View(), Track(c, ip, limit));
      if ip == 0 {
        return false, 0;
      }
      if c !in connections || (c in trackedIp && trackedIp[c] != 0) {
        return false, 0;
      }
      var count := if ip in ipConnectionCount then ipConnectionCount[ip] else 0;
      currentCount := count;
      if limit > 0 && count >= limit {
        return false, currentCount;
      }
      trackedIp := trackedIp[c := ip];
      currentCount := count + 1;
      ipConnectionCount := ipConnectionCount[ip := currentCount];
      ok := true;
    }
  }
}
