/**
 The sliding-window limiter (engine/internal/ratelimit/ratelimit.go): the Redis script as one atomic
 step over sorted sets with a time to live, and the limiter that simply remembers everything.
 */
module RateLimit {
  import opened Wrappers

  /** A sorted set: scores by member, and the instant after which the key is gone. */
  datatype SortedSet = SortedSet(members: map<string, int>, expires: Option<int>)

  type Keys = map<string, SortedSet>

  datatype Request = Request(key: string, member: string, now: int)
  datatype Verdict = Verdict(limited: bool, count: int)

  // ----- the commands the script uses ------------------------------------------------------

  /** The members of a key that Redis still shows at this instant. */
  function Live(keys: Keys, key: string, now: int): map<string, int> {
    if key in keys && !(keys[key].expires.Some? && now > keys[key].expires.value) then keys[key].members else map[]
  }

  /** A key holds a non-empty set or does not exist. */
  function Put(keys: Keys, key: string, z: SortedSet): Keys {
    if z.members == map[] then keys - {key} else keys[key := z]
  }

  class Redis {
    var keys: Keys

    constructor ()
      ensures keys == map[]
    {
      keys := map[];
    }

    /** ZREMRANGEBYSCORE key 0 max, at an instant; a key past its time to live is gone first. */
    method ZRemRangeByScore(key: string, max: int, now: int)
      modifies this
      ensures keys == Pruned(old(keys), key, max, now)
    {
      var live := Live(keys, key, now);
      var expires := if key in keys && live != map[] then keys[key].expires else None;
      keys := Put(keys, key, SortedSet(map m | m in live && !(0 <= live[m] <= max) :: live[m], expires));
    }

    method ZCard(key: string) returns (n: nat)
      ensures n == Card(keys, key)
    {
      n := if key in keys then |keys[key].members| else 0;
    }

    method ZAdd(key: string, score: int, member: string)
      modifies this
      ensures keys == Added(old(keys), key, score, member)
    {
      var z := if key in keys then keys[key] else SortedSet(map[], None);
      keys := keys[key := SortedSet(z.members[member := score], z.expires)];
    }

    /** PEXPIRE: no effect on a missing key, deletion when the time to live is not positive. */
    method PExpire(key: string, ttl: int, now: int)
      modifies this
      ensures keys == Expiring(old(keys), key, ttl, now)
    {
      if key in keys {
        keys := if ttl <= 0 then keys - {key} else keys[key := keys[key].(expires := Some(now + ttl))];
      }
    }

    /** The script. */
    method SlidingWindow(r: Request, window: int, limit: int) returns (v: Verdict)
      modifies this
      ensures v == Script(old(keys), r, window, limit).0
      ensures keys == Script(old(keys), r, window, limit).1
    {
      ZRemRangeByScore(r.key, r.now - window, r.now);
      var count := ZCard(r.key);
      if count >= limit {
        PExpire(r.key, window, r.now);
        return Verdict(true, count);
      }
      ZAdd(r.key, r.now, r.member);
      PExpire(r.key, window, r.now);
      v := Verdict(false, count + 1);
    }
  }

  function Pruned(keys: Keys, key: string, max: int, now: int): Keys {
    var live := Live(keys, key, now);
    var expires := if key in keys && live != map[] then keys[key].expires else None;
    Put(keys, key, SortedSet(map m | m in live && !(0 <= live[m] <= max) :: live[m], expires))
  }

  function Card(keys: Keys, key: string): nat {
    if key in keys then |keys[key].members| else 0
  }

  function Added(keys: Keys, key: string, score: int, member: string): Keys {
    var z := if key in keys then keys[key] else SortedSet(map[], None);
    keys[key := SortedSet(z.members[member := score], z.expires)]
  }

  function Expiring(keys: Keys, key: string, ttl: int, now: int): Keys {
    if key !in keys then keys
    else if ttl <= 0 then keys - {key}
    else keys[key := keys[key].(expires := Some(now + ttl))]
  }

  function Script(keys: Keys, r: Request, window: int, limit: int): (Verdict, Keys) {
    var pruned := Pruned(keys, r.key, r.now - window, r.now);
    var count := Card(pruned, r.key);
    if count >= limit then (Verdict(true, count), Expiring(pruned, r.key, window, r.now))
    else (Verdict(false, count + 1), Expiring(Added(pruned, r.key, r.now, r.member), r.key, window, r.now))
  }

  // ----- the limiter that remembers everything ---------------------------------------------

  /** One past request and whether it was allowed. */
  datatype Hit = Hit(request: Request, allowed: bool)

  predicate Counts(h: Hit, key: string, after: int) {
    h.allowed && h.request.key == key && h.request.now > after
  }

  /** How many requests on this key were allowed later than a given instant. */
  function AllowedAfter(history: seq<Hit>, key: string, after: int): nat {
    if history == [] then 0
    else
      var n := |history| - 1;
      AllowedAfter(history[..n], key, after) + if Counts(history[n], key, after) then 1 else 0
  }

  function Decide(history: seq<Hit>, r: Request, window: int, limit: int): Verdict {
    var count := AllowedAfter(history, r.key, r.now - window);
    if count >= limit then Verdict(true, count) else Verdict(false, count + 1)
  }

  function Remember(history: seq<Hit>, r: Request, window: int, limit: int): seq<Hit> {
    history + [Hit(r, !Decide(history, r, window, limit).limited)]
  }

  // ----- the script keeps what matters of the history --------------------------------------

  function MembersAfter(history: seq<Hit>, key: string, after: int): set<string> {
    if history == [] then {}
    else
      var n := |history| - 1;
      MembersAfter(history[..n], key, after) + if Counts(history[n], key, after) then {history[n].request.member} else {}
  }

  function LiveAfter(keys: Keys, key: string, now: int, after: int): set<string> {
    set m | m in Live(keys, key, now) && Live(keys, key, now)[m] > after
  }

  /** Every score lies in the past and the key outlives it by a window. */
  predicate ScoresOk(z: SortedSet, last: int, window: int) {
    && z.members != map[]
    && z.expires.Some?
    && (forall m :: m in z.members ==> 0 <= z.members[m] <= last && z.members[m] + window <= z.expires.value)
  }

  predicate AgreesAt(keys: Keys, history: seq<Hit>, k: string, now: int, window: int) {
    LiveAfter(keys, k, now, now - window) == MembersAfter(history, k, now - window)
  }

  /** From now on, each key shows exactly the members the history has in the window. */
  ghost predicate Agrees(keys: Keys, history: seq<Hit>, last: int, window: int) {
    && (forall k :: k in keys ==> ScoresOk(keys[k], last, window))
    && (forall k, now :: now >= last ==> AgreesAt(keys, history, k, now, window))
  }

  predicate FreshMember(history: seq<Hit>, r: Request) {
    forall i :: 0 <= i < |history| && history[i].request.key == r.key ==> history[i].request.member != r.member
  }

  predicate DistinctMembers(history: seq<Hit>) {
    forall i, j :: 0 <= i < j < |history| && history[i].request.key == history[j].request.key ==>
      history[i].request.member != history[j].request.member
  }

  lemma {:induction false} MembersComeFromHistory(history: seq<Hit>, key: string, after: int, m: string)
    requires m in MembersAfter(history, key, after)
    ensures exists i :: 0 <= i < |history| && history[i].request.key == key && history[i].request.member == m
  {
    var n := |history| - 1;
    if m in MembersAfter(history[..n], key, after) {
      MembersComeFromHistory(history[..n], key, after, m);
      var i :| 0 <= i < n && history[..n][i].request.key == key && history[..n][i].request.member == m;
      assert history[i].request.member == m;
    }
  }

  /** With one member per request, counting members is counting requests. */
  lemma {:induction false} MembersCountRequests(history: seq<Hit>, key: string, after: int)
    requires DistinctMembers(history)
    ensures |MembersAfter(history, key, after)| == AllowedAfter(history, key, after)
  {
    if history == [] {
    } else {
      var n := |history| - 1;
      var front, last := history[..n], history[n];
      assert DistinctMembers(front);
      MembersCountRequests(front, key, after);
      if Counts(last, key, after) && last.request.member in MembersAfter(front, key, after) {
        MembersComeFromHistory(front, key, after, last.request.member);
      }
    }
  }

  /** The members a key holds, time to live aside. */
  function Held(keys: Keys, key: string): map<string, int> {
    if key in keys then keys[key].members else map[]
  }

  /** What pruning leaves of the key: the members in the window ending now. */
  lemma PrunedMembers(keys: Keys, history: seq<Hit>, last: int, r: Request, window: int)
    requires Agrees(keys, history, last, window) && last <= r.now
    ensures var left := Held(Pruned(keys, r.key, r.now - window, r.now), r.key);
      && left.Keys == MembersAfter(history, r.key, r.now - window)
      && (forall m :: m in left ==> m in Live(keys, r.key, r.now) && left[m] == Live(keys, r.key, r.now)[m])
  {
    var live := Live(keys, r.key, r.now);
    var kept := map m | m in live && !(0 <= live[m] <= r.now - window) :: live[m];
    assert forall m :: m in live ==> 0 <= live[m] by {
      if r.key in keys { assert ScoresOk(keys[r.key], last, window); }
    }
    assert AgreesAt(keys, history, r.key, r.now, window);
    assert kept.Keys == LiveAfter(keys, r.key, r.now, r.now - window);
    assert Held(Pruned(keys, r.key, r.now - window, r.now), r.key) == kept;
  }

  lemma CardOfKeys(keys: Keys, key: string, s: set<string>)
    requires Held(keys, key).Keys == s
    ensures Card(keys, key) == |s|
  {
  }

  lemma ScriptVerdict(keys: Keys, r: Request, window: int, limit: int, count: nat)
    requires count == Card(Pruned(keys, r.key, r.now - window, r.now), r.key)
    ensures Script(keys, r, window, limit).0 == if count >= limit then Verdict(true, count) else Verdict(false, count + 1)
  {
  }

  lemma PrunedKeys(keys: Keys, history: seq<Hit>, last: int, r: Request, window: int)
    requires Agrees(keys, history, last, window) && last <= r.now
    ensures Held(Pruned(keys, r.key, r.now - window, r.now), r.key).Keys == MembersAfter(history, r.key, r.now - window)
  {
    PrunedMembers(keys, history, last, r, window);
  }

  lemma CardCountsRequests(keys: Keys, key: string, history: seq<Hit>, after: int)
    requires Held(keys, key).Keys == MembersAfter(history, key, after) && DistinctMembers(history)
    ensures Card(keys, key) == AllowedAfter(history, key, after)
  {
    MembersCountRequests(history, key, after);
    CardOfKeys(keys, key, MembersAfter(history, key, after));
  }

  /** The verdict and the count are those of the full history. */
  lemma VerdictAgrees(keys: Keys, history: seq<Hit>, last: int, r: Request, window: int, limit: int)
    requires Agrees(keys, history, last, window) && last <= r.now && DistinctMembers(history)
    ensures Script(keys, r, window, limit).0 == Decide(history, r, window, limit)
  {
    PrunedKeys(keys, history, last, r, window);
    CardCountsRequests(Pruned(keys, r.key, r.now - window, r.now), r.key, history, r.now - window);
    ScriptVerdict(keys, r, window, limit, AllowedAfter(history, r.key, r.now - window));
  }

  lemma PutHeld(keys: Keys, key: string, z: SortedSet)
    ensures Held(Put(keys, key, z), key) == z.members
    ensures key in Put(keys, key, z) ==> Put(keys, key, z)[key].members != map[]
  {
  }

  lemma ExpiringHeld(keys: Keys, key: string, ttl: int, now: int)
    requires key in keys ==> keys[key].members != map[]
    ensures Held(Expiring(keys, key, ttl, now), key) == if ttl <= 0 then map[] else Held(keys, key)
    ensures key in Expiring(keys, key, ttl, now) ==>
      var z := Expiring(keys, key, ttl, now)[key]; z.members != map[] && z.expires == Some(now + ttl)
  {
  }

  lemma AddedHeld(keys: Keys, key: string, score: int, member: string)
    ensures Held(Added(keys, key, score, member), key) == Held(keys, key)[member := score]
    ensures key in Added(keys, key, score, member) && Added(keys, key, score, member)[key].members != map[]
  {
    assert member in Added(keys, key, score, member)[key].members;
  }

  lemma PrunedNotEmpty(keys: Keys, key: string, max: int, now: int)
    ensures key in Pruned(keys, key, max, now) ==> Pruned(keys, key, max, now)[key].members != map[]
  {
    var live := Live(keys, key, now);
    var expires := if key in keys && live != map[] then keys[key].expires else None;
    PutHeld(keys, key, SortedSet(map m | m in live && !(0 <= live[m] <= max) :: live[m], expires));
  }

  /** A refused request only prunes the set and renews its time to live. */
  lemma LimitedLeaves(keys: Keys, r: Request, window: int, limit: int)
    requires Script(keys, r, window, limit).0.limited
    ensures Script(keys, r, window, limit).1 == Expiring(Pruned(keys, r.key, r.now - window, r.now), r.key, window, r.now)
  {
  }

  /** An allowed one is added as well. */
  lemma AllowedLeaves(keys: Keys, r: Request, window: int, limit: int)
    requires !Script(keys, r, window, limit).0.limited
    ensures var pruned := Pruned(keys, r.key, r.now - window, r.now);
      Script(keys, r, window, limit).1 == Expiring(Added(pruned, r.key, r.now, r.member), r.key, window, r.now)
  {
  }

  /** What renewing the time to live leaves of a key. */
  lemma LeavesOf(before: Keys, key: string, window: int, now: int, after: Keys)
    requires (key in before ==> before[key].members != map[]) && after == Expiring(before, key, window, now)
    ensures Held(after, key) == if window <= 0 then map[] else Held(before, key)
    ensures key in after ==> after[key].members != map[] && after[key].expires == Some(now + window)
  {
    ExpiringHeld(before, key, window, now);
  }

  /** What the script leaves in the key it was called on. */
  lemma ScriptLeaves(keys: Keys, r: Request, window: int, limit: int)
    ensures var left := Held(Pruned(keys, r.key, r.now - window, r.now), r.key);
      var (v, after) := Script(keys, r, window, limit);
      && Held(after, r.key) == (if window <= 0 then map[] else if v.limited then left else left[r.member := r.now])
      && (r.key in after ==> after[r.key].members != map[] && after[r.key].expires == Some(r.now + window))
  {
    var pruned, after := Pruned(keys, r.key, r.now - window, r.now), Script(keys, r, window, limit).1;
    if Script(keys, r, window, limit).0.limited {
      LimitedLeaves(keys, r, window, limit);
      PrunedNotEmpty(keys, r.key, r.now - window, r.now);
      LeavesOf(pruned, r.key, window, r.now, after);
    } else {
      AllowedLeaves(keys, r, window, limit);
      AddedHeld(pruned, r.key, r.now, r.member);
      LeavesOf(Added(pruned, r.key, r.now, r.member), r.key, window, r.now, after);
    }
  }

  function Entry(keys: Keys, key: string): Option<SortedSet> {
    if key in keys then Some(keys[key]) else None
  }

  /** The script touches no other key. */
  lemma ScriptElsewhere(keys: Keys, r: Request, window: int, limit: int, k: string)
    requires k != r.key
    ensures Entry(Script(keys, r, window, limit).1, k) == Entry(keys, k)
  {
  }

  /** Members pruned now but still in the window at a later instant are those the history has then. */
  lemma StillInWindow(keys: Keys, history: seq<Hit>, last: int, r: Request, window: int, now: int)
    requires Agrees(keys, history, last, window) && last <= r.now <= now
    ensures var left := Held(Pruned(keys, r.key, r.now - window, r.now), r.key);
      (set m | m in left && left[m] > now - window) == MembersAfter(history, r.key, now - window)
  {
    var left := Held(Pruned(keys, r.key, r.now - window, r.now), r.key);
    PrunedMembers(keys, history, last, r, window);
    assert AgreesAt(keys, history, r.key, r.now, window) && AgreesAt(keys, history, r.key, now, window);
    if r.key in keys { assert ScoresOk(keys[r.key], last, window); }
    assert (set m | m in left && left[m] > now - window) == LiveAfter(keys, r.key, now, now - window);
  }

  predicate NoLaterThan(history: seq<Hit>, last: int) {
    forall i :: 0 <= i < |history| ==> history[i].request.now <= last
  }

  lemma {:induction false} NothingAfter(history: seq<Hit>, key: string, last: int, after: int)
    requires NoLaterThan(history, last) && last <= after
    ensures MembersAfter(history, key, after) == {}
  {
    if history == [] {
    } else {
      NothingAfter(history[..|history| - 1], key, last, after);
    }
  }

  lemma MembersSnoc(history: seq<Hit>, h: Hit, key: string, after: int)
    ensures MembersAfter(history + [h], key, after)
         == MembersAfter(history, key, after) + if Counts(h, key, after) then {h.request.member} else {}
  {
    assert (history + [h])[..|history|] == history;
  }

  /** What the key shows later, from what it holds now. */
  lemma ShownLater(keys: Keys, key: string, left: map<string, int>, added: bool, member: string, score: int,
                   now: int, after: int)
    requires key in keys ==> keys[key].expires.Some? && now <= keys[key].expires.value
    requires Held(keys, key) == if added then left[member := score] else left
    requires added ==> member !in left
    ensures LiveAfter(keys, key, now, after)
         == (set m | m in left && left[m] > after) + if added && score > after then {member} else {}
  {
    LiveIsHeld(keys, key, now);
  }

  lemma FreshIsNotLeft(keys: Keys, history: seq<Hit>, last: int, r: Request, window: int)
    requires Agrees(keys, history, last, window) && last <= r.now && FreshMember(history, r)
    ensures r.member !in Held(Pruned(keys, r.key, r.now - window, r.now), r.key)
  {
    PrunedKeys(keys, history, last, r, window);
    if r.member in MembersAfter(history, r.key, r.now - window) {
      MembersComeFromHistory(history, r.key, r.now - window, r.member);
    }
  }

  /** Long after, or with no window at all, the key shows nothing and the history has nothing. */
  lemma AgreesWhenGone(keys: Keys, history: seq<Hit>, last: int, r: Request, window: int, limit: int, now: int)
    requires 0 <= last <= r.now <= now && NoLaterThan(history, last) && (window <= 0 || now > r.now + window)
    ensures LiveAfter(Script(keys, r, window, limit).1, r.key, now, now - window) == {}
    ensures MembersAfter(history, r.key, now - window) == {}
  {
    ScriptLeaves(keys, r, window, limit);
    NothingAfter(history, r.key, last, now - window);
    NothingShown(Script(keys, r, window, limit).1, r.key, now, now - window);
  }

  /** Within a window, it shows what was left of it and the request just allowed. */
  lemma AgreesWhenLive(keys: Keys, history: seq<Hit>, last: int, r: Request, window: int, limit: int, now: int)
    requires Agrees(keys, history, last, window) && last <= r.now <= now <= r.now + window && window > 0
    requires FreshMember(history, r)
    ensures LiveAfter(Script(keys, r, window, limit).1, r.key, now, now - window)
         == MembersAfter(history, r.key, now - window)
            + if !Script(keys, r, window, limit).0.limited && r.now > now - window then {r.member} else {}
  {
    var (v, after) := Script(keys, r, window, limit);
    ScriptLeaves(keys, r, window, limit);
    StillInWindow(keys, history, last, r, window, now);
    FreshIsNotLeft(keys, history, last, r, window);
    ShownLater(after, r.key, Held(Pruned(keys, r.key, r.now - window, r.now), r.key), !v.limited, r.member, r.now,
               now, now - window);
  }

  lemma AgreesOnKey(keys: Keys, history: seq<Hit>, last: int, r: Request, window: int, limit: int, now: int)
    requires Agrees(keys, history, last, window) && 0 <= last <= r.now <= now && NoLaterThan(history, last)
    requires DistinctMembers(history) && FreshMember(history, r)
    ensures AgreesAt(Script(keys, r, window, limit).1, Remember(history, r, window, limit), r.key, now, window)
  {
    VerdictAgrees(keys, history, last, r, window, limit);
    MembersSnoc(history, Hit(r, !Decide(history, r, window, limit).limited), r.key, now - window);
    if window <= 0 || now > r.now + window {
      AgreesWhenGone(keys, history, last, r, window, limit, now);
    } else {
      AgreesWhenLive(keys, history, last, r, window, limit, now);
    }
  }

  lemma NothingShown(keys: Keys, key: string, now: int, after: int)
    requires Held(keys, key) == map[] || (key in keys && keys[key].expires.Some? && now > keys[key].expires.value)
    ensures LiveAfter(keys, key, now, after) == {}
  {
  }

  lemma LiveIsHeld(keys: Keys, key: string, now: int)
    requires key in keys ==> keys[key].expires.Some? && now <= keys[key].expires.value
    ensures Live(keys, key, now) == Held(keys, key)
  {
  }

  lemma AgreesElsewhere(keys: Keys, history: seq<Hit>, last: int, r: Request, window: int, limit: int, k: string, now: int)
    requires Agrees(keys, history, last, window) && last <= r.now <= now && k != r.key
    ensures AgreesAt(Script(keys, r, window, limit).1, Remember(history, r, window, limit), k, now, window)
  {
    var after := Script(keys, r, window, limit).1;
    ScriptElsewhere(keys, r, window, limit, k);
    SameEntrySameMembers(after, keys, k, now, now - window);
    MembersSnoc(history, Hit(r, !Decide(history, r, window, limit).limited), k, now - window);
    assert AgreesAt(keys, history, k, now, window);
  }

  lemma SameEntrySameMembers(after: Keys, keys: Keys, k: string, now: int, from: int)
    requires Entry(after, k) == Entry(keys, k)
    ensures LiveAfter(after, k, now, from) == LiveAfter(keys, k, now, from)
  {
  }

  lemma ScoresStep(keys: Keys, history: seq<Hit>, last: int, r: Request, window: int, limit: int, k: string)
    requires Agrees(keys, history, last, window) && 0 <= last <= r.now && k in Script(keys, r, window, limit).1
    ensures ScoresOk(Script(keys, r, window, limit).1[k], r.now, window)
  {
    if k == r.key {
      ScriptLeaves(keys, r, window, limit);
      PrunedMembers(keys, history, last, r, window);
      if r.key in keys { assert ScoresOk(keys[r.key], last, window); }
      assert Script(keys, r, window, limit).1[k].members == Held(Script(keys, r, window, limit).1, k);
    } else {
      ScriptElsewhere(keys, r, window, limit, k);
      assert ScoresOk(keys[k], last, window);
    }
  }

  /** One evaluation of the script keeps what the history keeps. */
  lemma AgreesStep(keys: Keys, history: seq<Hit>, last: int, r: Request, window: int, limit: int)
    requires Agrees(keys, history, last, window) && 0 <= last <= r.now && NoLaterThan(history, last)
    requires DistinctMembers(history) && FreshMember(history, r)
    ensures Agrees(Script(keys, r, window, limit).1, Remember(history, r, window, limit), r.now, window)
  {
    var after, longer := Script(keys, r, window, limit).1, Remember(history, r, window, limit);
    forall k | k in after ensures ScoresOk(after[k], r.now, window) {
      ScoresStep(keys, history, last, r, window, limit, k);
    }
    forall k, now | now >= r.now ensures AgreesAt(after, longer, k, now, window) {
      if k == r.key {
        AgreesOnKey(keys, history, last, r, window, limit, now);
      } else {
        AgreesElsewhere(keys, history, last, r, window, limit, k, now);
      }
    }
  }

  // ----- whole runs ------------------------------------------------------------------------

  /** A clock that starts at or after the epoch and never goes back, and one member per request and key. */
  predicate Orderly(rs: seq<Request>) {
    && (forall i :: 0 <= i < |rs| ==> 0 <= rs[i].now)
    && (forall i, j :: 0 <= i < j < |rs| ==> rs[i].now <= rs[j].now)
    && (forall i, j :: 0 <= i < j < |rs| && rs[i].key == rs[j].key ==> rs[i].member != rs[j].member)
  }

  /** The state Redis is in after a run of scripts, and the verdicts they returned. */
  function RunScripts(rs: seq<Request>, window: int, limit: int): (seq<Verdict>, Keys) {
    if rs == [] then ([], map[])
    else
      var n := |rs| - 1;
      var (vs, keys) := RunScripts(rs[..n], window, limit);
      var (v, after) := Script(keys, rs[n], window, limit);
      (vs + [v], after)
  }

  /** The same requests against the full history. */
  function RunHistory(rs: seq<Request>, window: int, limit: int): (seq<Verdict>, seq<Hit>) {
    if rs == [] then ([], [])
    else
      var n := |rs| - 1;
      var (vs, history) := RunHistory(rs[..n], window, limit);
      (vs + [Decide(history, rs[n], window, limit)], Remember(history, rs[n], window, limit))
  }

  function LastTime(rs: seq<Request>): int {
    if rs == [] then 0 else rs[|rs| - 1].now
  }

  lemma {:induction false} HistoryHoldsRequests(rs: seq<Request>, window: int, limit: int)
    ensures var h := RunHistory(rs, window, limit).1;
      |h| == |rs| && forall i :: 0 <= i < |rs| ==> h[i].request == rs[i]
  {
    if rs == [] {
    } else {
      HistoryHoldsRequests(rs[..|rs| - 1], window, limit);
    }
  }

  lemma OrderlyFront(rs: seq<Request>)
    requires Orderly(rs) && rs != []
    ensures var front, r := rs[..|rs| - 1], rs[|rs| - 1];
      Orderly(front) && 0 <= LastTime(front) <= r.now
  {
  }

  /** What an orderly run says about the history it leaves and the request that comes next. */
  lemma HistoryIsOrderly(rs: seq<Request>, window: int, limit: int)
    requires Orderly(rs) && rs != []
    ensures var front, r := rs[..|rs| - 1], rs[|rs| - 1];
      var history := RunHistory(front, window, limit).1;
      NoLaterThan(history, LastTime(front)) && DistinctMembers(history) && FreshMember(history, r)
  {
    HistoryHoldsRequests(rs[..|rs| - 1], window, limit);
  }

  lemma RunsUnfold(rs: seq<Request>, window: int, limit: int)
    requires rs != []
    ensures var front, r := rs[..|rs| - 1], rs[|rs| - 1];
      var ((vs, keys), (us, history)) := (RunScripts(front, window, limit), RunHistory(front, window, limit));
      && RunScripts(rs, window, limit) == (vs + [Script(keys, r, window, limit).0], Script(keys, r, window, limit).1)
      && RunHistory(rs, window, limit) == (us + [Decide(history, r, window, limit)], Remember(history, r, window, limit))
  {
  }

  lemma {:induction false} RunsAgree(rs: seq<Request>, window: int, limit: int)
    requires Orderly(rs)
    ensures RunScripts(rs, window, limit).0 == RunHistory(rs, window, limit).0
    ensures Agrees(RunScripts(rs, window, limit).1, RunHistory(rs, window, limit).1, LastTime(rs), window)
  {
    if rs == [] {
    } else {
      var front, r := rs[..|rs| - 1], rs[|rs| - 1];
      var keys, history := RunScripts(front, window, limit).1, RunHistory(front, window, limit).1;
      OrderlyFront(rs);
      RunsAgree(front, window, limit);
      HistoryIsOrderly(rs, window, limit);
      RunsUnfold(rs, window, limit);
      VerdictAgrees(keys, history, LastTime(front), r, window, limit);
      AgreesStep(keys, history, LastTime(front), r, window, limit);
    }
  }

  /** Pruning and expiry never show: verdicts and counts are those of a limiter that forgets nothing. */
  lemma PruningAndExpiryInvisible(rs: seq<Request>, window: int, limit: int)
    requires Orderly(rs)
    ensures RunScripts(rs, window, limit).0 == RunHistory(rs, window, limit).0
  {
    RunsAgree(rs, window, limit);
  }

  // ----- the budget ------------------------------------------------------------------------

  /** How many requests on this key were allowed in the half-open window (from, from + window]. */
  function AllowedWithin(history: seq<Hit>, key: string, from: int, window: int): nat {
    if history == [] then 0
    else
      var n := |history| - 1;
      AllowedWithin(history[..n], key, from, window)
      + if Counts(history[n], key, from) && history[n].request.now <= from + window then 1 else 0
  }

  lemma {:induction false} WithinAtMostAfter(history: seq<Hit>, key: string, from: int, window: int, after: int)
    requires after <= from
    ensures AllowedWithin(history, key, from, window) <= AllowedAfter(history, key, after)
  {
    if history == [] {
    } else {
      WithinAtMostAfter(history[..|history| - 1], key, from, window, after);
    }
  }

  lemma {:induction false} BudgetHolds(rs: seq<Request>, window: int, limit: nat, key: string, from: int)
    ensures AllowedWithin(RunHistory(rs, window, limit).1, key, from, window) <= limit
  {
    if rs == [] {
    } else {
      var n := |rs| - 1;
      var front, r := rs[..n], rs[n];
      var history := RunHistory(front, window, limit).1;
      BudgetHolds(front, window, limit, key, from);
      assert RunHistory(rs, window, limit).1[..|history|] == history;
      if r.key == key && from < r.now <= from + window {
        WithinAtMostAfter(history, key, from, window, r.now - window);
      }
    }
  }

  /**
   What the script allows: in any window of that length at most `limit` requests per key, and a request
   is refused exactly when that many were allowed in the window ending at it.
   */
  lemma SlidingWindowExact(rs: seq<Request>, window: int, limit: nat, key: string, from: int)
    requires Orderly(rs)
    ensures var (vs, history) := (RunScripts(rs, window, limit).0, RunHistory(rs, window, limit).1);
      && |vs| == |history| == |rs|
      && (forall i :: 0 <= i < |rs| ==> history[i] == Hit(rs[i], !vs[i].limited))
      && AllowedWithin(history, key, from, window) <= limit
      && (forall i :: 0 <= i < |rs| ==>
            (vs[i].limited <==> AllowedAfter(history[..i], rs[i].key, rs[i].now - window) >= limit))
  {
    RunsAgree(rs, window, limit);
    HistoryVerdicts(rs, window, limit);
    BudgetHolds(rs, window, limit, key, from);
  }

  lemma {:induction false} HistoryAt(rs: seq<Request>, window: int, limit: int, i: nat)
    requires i < |rs|
    ensures var (vs, history) := RunHistory(rs, window, limit);
      && |vs| == |history| == |rs|
      && vs[i] == Decide(history[..i], rs[i], window, limit)
      && history[i] == Hit(rs[i], !vs[i].limited)
  {
    var n := |rs| - 1;
    var (vs, history) := RunHistory(rs, window, limit);
    var (us, shorter) := RunHistory(rs[..n], window, limit);
    assert vs == us + [Decide(shorter, rs[n], window, limit)];
    assert history == shorter + [Hit(rs[n], !Decide(shorter, rs[n], window, limit).limited)];
    if i < n {
      HistoryAt(rs[..n], window, limit, i);
      assert history[..i] == shorter[..i];
    } else {
      if n > 0 { HistoryAt(rs[..n], window, limit, 0); }
      assert history[..n] == shorter;
    }
  }

  lemma HistoryVerdicts(rs: seq<Request>, window: int, limit: int)
    ensures var (vs, history) := RunHistory(rs, window, limit);
      && |vs| == |history| == |rs|
      && (forall i :: 0 <= i < |rs| ==> history[i] == Hit(rs[i], !vs[i].limited))
      && (forall i :: 0 <= i < |rs| ==>
            (vs[i].limited <==> AllowedAfter(history[..i], rs[i].key, rs[i].now - window) >= limit))
  {
    var (vs, history) := RunHistory(rs, window, limit);
    forall i | 0 <= i < |rs|
      ensures |vs| == |history| == |rs|
      ensures vs[i] == Decide(history[..i], rs[i], window, limit) && history[i] == Hit(rs[i], !vs[i].limited)
    {
      HistoryAt(rs, window, limit, i);
    }
    if rs != [] { HistoryAt(rs, window, limit, 0); }
  }
}
