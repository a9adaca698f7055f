/** One poll cycle: draining the ready issues into work units, then seeding units for orphans.
    Models the drain loop and the orphan scan of _poll_and_run, and _select_work_unit, in
    src/baton_harness/chain/daemon/poll.py. Ready issues are those that passed the tick-start checks. */
module Polling {
  import opened Prelude
  import opened Labels

  /** A listed issue: its number and the number of its milestone, if it has one. */
  datatype Listed = Listed(number: int, milestone: Option<int>)

  /** What a work unit is about: a whole milestone or one issue without a milestone. */
  datatype Key = Milestone(n: int) | Single(n: int)

  function KeyOf(issue: Listed): Key {
    if issue.milestone.Some? then Milestone(issue.milestone.value) else Single(issue.number)
  }

  /** Milestones first, each kind by number. */
  predicate KeyBefore(a: Key, b: Key) {
    (a.Milestone? && b.Single?) || (a.Milestone? == b.Milestone? && a.n < b.n)
  }

  /** A unit that was selected; `skipped` names the member that stopped it, if it was not run. */
  datatype Unit = Unit(key: Key, membership: set<int>, ready: set<int>, skipped: Option<int>)

  /** Answers of GitHub: the open members of a milestone (empty when the fetch fails), in the drain and in the orphan
      scan, and the labels of an issue at a drain step. */
  datatype Replies = Replies(
    members: int -> set<int>,
    orphanMembers: int -> set<int>,
    labels: (nat, int) -> Option<set<Label>>)

  function Filter<T(!new)>(s: seq<T>, p: T -> bool): (r: seq<T>)
    ensures |r| <= |s|
    ensures forall x :: x in r <==> x in s && p(x)
    ensures (exists x :: x in s && !p(x)) ==> |r| < |s|
  {
    if s == [] then []
    else if p(s[0]) then [s[0]] + Filter(s[1..], p)
    else Filter(s[1..], p)
  }

  ghost function NumbersOf(issues: seq<Listed>, key: Key): set<int> {
    set i | i in issues && KeyOf(i) == key :: i.number
  }

  // ----- _select_work_unit -----

  /** The first key of the list. */
  ghost predicate Least(issues: seq<Listed>, key: Key) {
    (exists i :: i in issues && KeyOf(i) == key)
    && forall i :: i in issues ==> KeyOf(i) == key || KeyBefore(key, KeyOf(i))
  }

  /** Milestones come before single issues, and each kind by its lowest number. */
  method SelectWorkUnit(issues: seq<Listed>) returns (unit: Option<(Key, set<int>)>)
    ensures unit.None? <==> issues == []
    ensures unit.Some? ==> Least(issues, unit.value.0) && unit.value.1 == NumbersOf(issues, unit.value.0)
    ensures unit.Some? ==> (unit.value.0.Milestone? <==> exists i :: i in issues && i.milestone.Some?)
    ensures unit.Some? && unit.value.0.Milestone? ==>
              var m := unit.value.0.n;
              && (exists i :: i in issues && i.milestone == Some(m))
              && (forall i :: i in issues && i.milestone.Some? ==> m <= i.milestone.value)
              && unit.value.1 == set i | i in issues && i.milestone == Some(m) :: i.number
    ensures unit.Some? && unit.value.0.Single? ==>
              var n := unit.value.0.n;
              && unit.value.1 == {n} && (exists i :: i in issues && i.number == n)
              && (forall i :: i in issues ==> n <= i.number)
  {
    var milestoned := Filter(issues, (i: Listed) => i.milestone.Some?);
    assert forall k :: 0 <= k < |milestoned| ==> milestoned[k] in milestoned;
    if milestoned != [] {
      var least := milestoned[0].milestone.value;
      for k := 1 to |milestoned|
        invariant exists j :: 0 <= j < k && milestoned[j].milestone == Some(least)
        invariant forall j :: 0 <= j < k ==> least <= milestoned[j].milestone.value
      {
        if milestoned[k].milestone.value < least { least := milestoned[k].milestone.value; }
      }
      var members := set i | i in milestoned && i.milestone == Some(least) :: i.number;
      assert forall i :: i in issues && i.milestone.Some? ==> i in milestoned;
      return Some((Milestone(least), members));
    }
    if issues == [] { return None; }
    assert issues[0] in issues;
    var least := issues[0].number;
    for k := 1 to |issues|
      invariant exists j :: 0 <= j < k && issues[j].number == least
      invariant forall j :: 0 <= j < k ==> least <= issues[j].number
    {
      if issues[k].number < least { least := issues[k].number; }
    }
    assert forall i :: i in issues ==> i !in milestoned && i.milestone.None?;
    ghost var first :| 0 <= first < |issues| && issues[first].number == least;
    assert issues[first] in issues && KeyOf(issues[first]) == Single(least);
    return Some((Single(least), {least}));
  }

  // ----- The drain loop -----

  predicate Excluded(labels: Option<set<Label>>) {
    labels.None? || labels.value * DISPATCH_EXCLUDE_LABELS != {} || AgentReady !in labels.value
  }

  lemma ExcludedIs(labels: Option<set<Label>>)
    ensures !Excluded(labels) <==>
            labels.Some? && AgentReady in labels.value && Blocked !in labels.value && AgentFailed !in labels.value
  {
    if labels.Some? {
      var found := labels.value * DISPATCH_EXCLUDE_LABELS;
      assert Blocked in labels.value ==> Blocked in found;
      assert AgentFailed in labels.value ==> AgentFailed in found;
    }
  }

  /** The mid-drain re-check over the greenlit members. */
  method FindExcluded(candidates: set<int>, step: nat, replies: Replies) returns (culprit: Option<int>)
    ensures culprit.None? <==> forall n :: n in candidates ==> !Excluded(replies.labels(step, n))
    ensures culprit.Some? ==> culprit.value in candidates && Excluded(replies.labels(step, culprit.value))
  {
    var rest := candidates;
    while rest != {}
      invariant rest <= candidates
      invariant forall n :: n in candidates - rest ==> !Excluded(replies.labels(step, n))
      decreases |rest|
    {
      var n := AnyOf(rest);
      if Excluded(replies.labels(step, n)) { return Some(n); }
      rest := rest - {n};
    }
    return None;
  }

  ghost function Expanded(ready: seq<Listed>, key: Key, members: int -> set<int>): set<int> {
    if key.Milestone? && members(key.n) != {} then members(key.n) else NumbersOf(ready, key)
  }

  /** A unit of the drain: all open members of its milestone if known, and skipped only when a later unit has a
      greenlit member that is no longer dispatchable. */
  ghost predicate DrainedWell(ready: seq<Listed>, replies: Replies, step: nat, u: Unit) {
    var greenlit := set i | i in ready :: i.number;
    u.membership == Expanded(ready, u.key, replies.members)
    && u.ready == greenlit
    && (u.skipped.None? <==>
          step == 0 || forall n :: n in u.membership * greenlit ==> !Excluded(replies.labels(step, n)))
    && (u.skipped.Some? ==>
          u.skipped.value in u.membership * greenlit && Excluded(replies.labels(step, u.skipped.value)))
  }

  ghost predicate InKeyOrder(units: seq<Unit>) {
    forall i, j :: 0 <= i < j < |units| ==> KeyBefore(units[i].key, units[j].key)
  }

  ghost predicate HasKey(units: seq<Unit>, key: Key) {
    exists k :: 0 <= k < |units| && units[k].key == key
  }

  ghost predicate AllDrainedWell(ready: seq<Listed>, replies: Replies, units: seq<Unit>) {
    forall k :: 0 <= k < |units| ==> DrainedWell(ready, replies, k, units[k])
  }

  /** `remaining` is what no unit was made for yet. */
  ghost predicate Draining(ready: seq<Listed>, remaining: seq<Listed>, units: seq<Unit>) {
    (forall i :: i in ready <==> i in remaining || (i in ready && HasKey(units, KeyOf(i))))
    && (forall k, i :: 0 <= k < |units| && i in remaining ==> KeyBefore(units[k].key, KeyOf(i)))
    && (forall k :: 0 <= k < |units| ==> exists i :: i in ready && KeyOf(i) == units[k].key)
    && InKeyOrder(units)
  }

  lemma DrainStep(ready: seq<Listed>, remaining: seq<Listed>, units: seq<Unit>, u: Unit, left: seq<Listed>)
    requires Draining(ready, remaining, units) && Least(remaining, u.key)
    requires forall i :: i in left <==> i in remaining && KeyOf(i) != u.key
    ensures Draining(ready, left, units + [u])
  {
    var more := units + [u];
    assert more[|units|] == u;
    forall i | i in ready ensures i in left || HasKey(more, KeyOf(i)) {
      if i in remaining {
      } else {
        var k :| 0 <= k < |units| && units[k].key == KeyOf(i);
        assert more[k] == units[k];
      }
    }
    forall k | 0 <= k < |more| ensures exists i :: i in ready && KeyOf(i) == more[k].key {
      if k == |units| {
        var i :| i in remaining && KeyOf(i) == u.key;
        assert i in ready;
      }
    }
    forall k | 0 <= k < |units| ensures KeyBefore(units[k].key, u.key) {
      var i :| i in remaining && KeyOf(i) == u.key;
      assert KeyBefore(units[k].key, KeyOf(i));
    }
  }

  /** The next key has no unit yet, so its issues are all still unassigned. */
  lemma NotYetAssigned(ready: seq<Listed>, remaining: seq<Listed>, units: seq<Unit>, key: Key)
    requires Draining(ready, remaining, units) && Least(remaining, key)
    ensures !HasKey(units, key) && NumbersOf(remaining, key) == NumbersOf(ready, key)
  {
    var first :| first in remaining && KeyOf(first) == key;
    forall k | 0 <= k < |units| ensures units[k].key != key {
      assert KeyBefore(units[k].key, KeyOf(first));
    }
    assert forall i :: i in ready && KeyOf(i) == key ==> i in remaining;
  }

  /** What the three sets of the drain loop stand for. */
  ghost predicate Tracked(units: seq<Unit>, milestones: set<int>, singles: set<int>, dispatched: set<int>) {
    (forall n :: n in milestones <==> HasKey(units, Milestone(n)))
    && (forall n :: n in singles <==> HasKey(units, Single(n)))
    && (forall n :: n in dispatched <==> InRun(units, n))
  }

  lemma TrackMore(units: seq<Unit>, milestones: set<int>, singles: set<int>, dispatched: set<int>, u: Unit)
    requires Tracked(units, milestones, singles, dispatched)
    ensures Tracked(units + [u],
                    milestones + if u.key.Milestone? then {u.key.n} else {},
                    singles + if u.key.Single? then {u.key.n} else {},
                    dispatched + if u.skipped.None? then u.membership else {})
  {
    AppendUnit(units, u);
  }

  lemma DrainMore(ready: seq<Listed>, replies: Replies, units: seq<Unit>, u: Unit)
    requires AllDrainedWell(ready, replies, units) && DrainedWell(ready, replies, |units|, u)
    ensures AllDrainedWell(ready, replies, units + [u])
  {
  }

  lemma LeastOfSingle(issues: seq<Listed>, key: Key)
    requires Least(issues, key) && key.Single?
    ensures NumbersOf(issues, key) == {key.n}
    ensures forall i :: i in issues ==> i.milestone.None?
  {
    var first :| first in issues && KeyOf(first) == key;
    forall i | i in issues ensures i.milestone.None? {
      assert KeyOf(i) == key || KeyBefore(key, KeyOf(i));
    }
  }

  /** The rest of one drain iteration once its unit is selected. */
  method DrainOne(ready: seq<Listed>, replies: Replies, key: Key, selected: set<int>, step: nat) returns (u: Unit)
    requires selected == NumbersOf(ready, key)
    ensures u.key == key && DrainedWell(ready, replies, step, u)
    ensures u.membership == if key.Milestone? && replies.members(key.n) != {} then replies.members(key.n) else selected
    ensures u.skipped.None? <==>
            step == 0
            || forall i :: i in ready && i.number in u.membership ==>
                 var labels := replies.labels(step, i.number);
                 && labels.Some? && AgentReady in labels.value
                 && Blocked !in labels.value && AgentFailed !in labels.value
  {
    var greenlit := set i | i in ready :: i.number;
    var membership := selected;
    if key.Milestone? {
      var full := replies.members(key.n);
      if full != {} { membership := full; }
    }
    var culprit := None;
    if step > 0 {
      culprit := FindExcluded(membership * greenlit, step, replies);
    }
    u := Unit(key, membership, greenlit, culprit);
    forall labels ensures !Excluded(labels) <==> labels.Some? && AgentReady in labels.value
                                                 && Blocked !in labels.value && AgentFailed !in labels.value {
      ExcludedIs(labels);
    }
    assert culprit.Some? ==> exists i :: i in ready && i.number == culprit.value;
  }

  method Drain(ready: seq<Listed>, replies: Replies)
      returns (units: seq<Unit>, milestones: set<int>, singles: set<int>, dispatched: set<int>)
    ensures Draining(ready, [], units) && AllDrainedWell(ready, replies, units)
    ensures forall i, j :: 0 <= i < j < |units| ==>
              || (units[i].key.Milestone? && units[j].key.Single?)
              || (units[i].key.Milestone? == units[j].key.Milestone? && units[i].key.n < units[j].key.n)
    ensures Tracked(units, milestones, singles, dispatched)
  {
    var remaining := ready;
    units, milestones, singles, dispatched := [], {}, {}, {};
    while remaining != []
      invariant Draining(ready, remaining, units) && AllDrainedWell(ready, replies, units)
      invariant Tracked(units, milestones, singles, dispatched)
      decreases |remaining|
    {
      var selected := SelectWorkUnit(remaining);
      var (key, numbers) := selected.value;
      NotYetAssigned(ready, remaining, units, key);
      var u := DrainOne(ready, replies, key, numbers, |units|);
      var left := RemoveSelected(remaining, key, numbers);
      TrackMore(units, milestones, singles, dispatched, u);
      DrainMore(ready, replies, units, u);
      DrainStep(ready, remaining, units, u, left);
      milestones := milestones + if key.Milestone? then {key.n} else {};
      singles := singles + if key.Single? then {key.n} else {};
      dispatched := dispatched + if u.skipped.None? then u.membership else {};
      units := units + [u];
      remaining := left;
    }
  }

  /** A milestone takes all its issues out of the pool, a single issue its number. */
  method RemoveSelected(remaining: seq<Listed>, key: Key, numbers: set<int>) returns (left: seq<Listed>)
    requires Least(remaining, key) && numbers == NumbersOf(remaining, key)
    ensures forall i :: i in left <==> i in remaining && KeyOf(i) != key
    ensures |left| < |remaining|
  {
    ghost var first :| first in remaining && KeyOf(first) == key;
    if key.Milestone? {
      left := Filter(remaining, (i: Listed) => i.milestone != Some(key.n));
    } else {
      LeastOfSingle(remaining, key);
      left := Filter(remaining, (i: Listed) => i.number !in numbers);
    }
    assert first !in left;
  }

  /** Issues handed to the work-unit loop. */
  ghost predicate InRun(units: seq<Unit>, n: int) {
    exists k :: 0 <= k < |units| && units[k].skipped.None? && n in units[k].membership
  }

  lemma AppendUnit(units: seq<Unit>, u: Unit)
    ensures forall key :: HasKey(units + [u], key) <==> HasKey(units, key) || key == u.key
    ensures forall n :: InRun(units + [u], n) <==> InRun(units, n) || (u.skipped.None? && n in u.membership)
  {
    var more := units + [u];
    assert more[|units|] == u;
    forall key | HasKey(units, key) ensures HasKey(more, key) {
      var k :| 0 <= k < |units| && units[k].key == key;
      assert more[k] == units[k];
    }
    forall n | InRun(units, n) ensures InRun(more, n) {
      var k :| 0 <= k < |units| && units[k].skipped.None? && n in units[k].membership;
      assert more[k] == units[k];
    }
  }

  // ----- The orphan scan -----

  /** A unit of the orphan scan: never any ready issue; the orphan alone if its milestone's members are unknown. */
  ghost predicate SeededWell(orphans: seq<Listed>, replies: Replies, u: Unit) {
    u.ready == {} && u.skipped.None?
    && exists o :: o in orphans && KeyOf(o) == u.key
         && u.membership == if o.milestone.Some? && replies.orphanMembers(o.milestone.value) != {}
                            then replies.orphanMembers(o.milestone.value) else {o.number}
  }

  ghost predicate KeysDiffer(units: seq<Unit>) {
    forall i, j :: 0 <= i < j < |units| ==> units[i].key != units[j].key
  }

  ghost predicate Seeding(orphans: seq<Listed>, replies: Replies, drained: seq<Unit>, seeded: seq<Unit>, done: nat)
    requires done <= |orphans|
  {
    (forall k :: 0 <= k < |seeded| ==> SeededWell(orphans, replies, seeded[k]) && !HasKey(drained, seeded[k].key))
    && KeysDiffer(seeded)
    && (forall k :: 0 <= k < done ==> HasKey(drained, KeyOf(orphans[k])) || HasKey(seeded, KeyOf(orphans[k])))
  }

  lemma SeedMore(orphans: seq<Listed>, replies: Replies, drained: seq<Unit>, seeded: seq<Unit>, done: nat, u: Unit)
    requires done < |orphans| && Seeding(orphans, replies, drained, seeded, done)
    requires SeededWell(orphans, replies, u) && u.key == KeyOf(orphans[done])
    requires !HasKey(drained, u.key) && !HasKey(seeded, u.key)
    ensures Seeding(orphans, replies, drained, seeded + [u], done + 1)
  {
    AppendUnit(seeded, u);
  }

  method OrphanScan(orphans: seq<Listed>, replies: Replies, ghost drained: seq<Unit>, milestones: set<int>,
                    singles: set<int>, ghost ran: set<int>)
      returns (seeded: seq<Unit>)
    requires Tracked(drained, milestones, singles, ran)
    ensures Seeding(orphans, replies, drained, seeded, |orphans|)
    ensures forall k :: 0 <= k < |seeded| ==>
              var u := seeded[k];
              && u.ready == {} && u.skipped.None? && (u.key.Single? ==> u.membership == {u.key.n})
              && (u.key.Milestone? ==>
                    var known := replies.orphanMembers(u.key.n);
                    if known != {} then u.membership == known
                    else exists o :: o in orphans && o.milestone == Some(u.key.n) && u.membership == {o.number})
  {
    seeded := [];
    var seenMilestones, seenIssues := {}, {};
    for k := 0 to |orphans|
      invariant Seeding(orphans, replies, drained, seeded, k)
      invariant forall n :: n in seenMilestones <==> HasKey(seeded, Milestone(n))
      invariant forall n :: n in seenIssues <==> HasKey(seeded, Single(n))
    {
      var o := orphans[k];
      var u := Unit(KeyOf(o), {o.number}, {}, None);
      if o.milestone.Some? {
        var n := o.milestone.value;
        if n in milestones || n in seenMilestones { continue; }
        seenMilestones := seenMilestones + {n};
        if replies.orphanMembers(n) != {} { u := u.(membership := replies.orphanMembers(n)); }
      } else {
        if o.number in singles || o.number in seenIssues { continue; }
        seenIssues := seenIssues + {o.number};
      }
      assert o in orphans && SeededWell(orphans, replies, u);
      SeedMore(orphans, replies, drained, seeded, k, u);
      AppendUnit(seeded, u);
      seeded := seeded + [u];
    }
  }

  // ----- The whole cycle -----

  /** Both phases; `orphans` is None when the second query fails. */
  method PollCycle(ready: seq<Listed>, orphans: Option<seq<Listed>>, replies: Replies)
      returns (drained: seq<Unit>, seeded: seq<Unit>, dispatched: set<int>)
    ensures Draining(ready, [], drained) && AllDrainedWell(ready, replies, drained)
    ensures orphans.Some? ==> Seeding(orphans.value, replies, drained, seeded, |orphans.value|)
    ensures orphans.None? ==> seeded == []
    ensures KeysDiffer(drained + seeded)
    ensures forall n :: n in dispatched <==> InRun(drained + seeded, n)
  {
    var milestones, singles;
    drained, milestones, singles, dispatched := Drain(ready, replies);
    seeded := [];
    InKeyOrderDiffers(drained);
    assert drained + seeded == drained;
    if orphans.Some? {
      seeded := OrphanScan(orphans.value, replies, drained, milestones, singles, dispatched);
      for k := 0 to |seeded|
        invariant forall n :: n in dispatched <==> InRun(drained + seeded[..k], n)
      {
        assert SeededWell(orphans.value, replies, seeded[k]);
        AppendUnit(drained + seeded[..k], seeded[k]);
        assert drained + seeded[..k + 1] == drained + seeded[..k] + [seeded[k]];
        dispatched := dispatched + seeded[k].membership;
      }
      assert seeded[..|seeded|] == seeded;
      forall i, j | 0 <= i < j < |drained + seeded| ensures (drained + seeded)[i].key != (drained + seeded)[j].key {
        if i < |drained| <= j { assert !HasKey(drained, seeded[j - |drained|].key); }
      }
    }
  }

  lemma InKeyOrderDiffers(units: seq<Unit>)
    requires InKeyOrder(units)
    ensures KeysDiffer(units)
  {
  }

  // ----- Which unit an issue is in -----

  /** GitHub's listing of the milestone leaves the issue in. */
  ghost predicate StillListed(replies: Replies, issue: Listed) {
    issue.milestone.Some? ==>
      var members := replies.members(issue.milestone.value);
      members == {} || issue.number in members
  }

  /** A ready issue is a member of the one unit made for its key exactly when its milestone's listing, if there is one,
      still has it; otherwise nothing is done about it in this cycle. */
  lemma MemberExactlyWhenListed(ready: seq<Listed>, replies: Replies, units: seq<Unit>, issue: Listed)
      returns (k: nat)
    requires Draining(ready, [], units) && AllDrainedWell(ready, replies, units) && issue in ready
    ensures k < |units| && units[k].key == KeyOf(issue)
    ensures forall m :: 0 <= m < |units| && m != k ==> units[m].key != KeyOf(issue)
    ensures issue.number in units[k].membership <==> StillListed(replies, issue)
  {
    assert HasKey(units, KeyOf(issue));
    k :| 0 <= k < |units| && units[k].key == KeyOf(issue);
    forall m | 0 <= m < |units| && m != k ensures units[m].key != KeyOf(issue) {
      assert KeyBefore(units[m].key, units[k].key) || KeyBefore(units[k].key, units[m].key);
    }
    assert DrainedWell(ready, replies, k, units[k]);
    assert issue.number in NumbersOf(ready, KeyOf(issue));
  }

  /** Issue 7 of milestone 1 is ready, the listing of the milestone holds 8 alone: 7 is in no unit. */
  lemma ListingCanDropAnIssue() returns (ready: seq<Listed>, replies: Replies, units: seq<Unit>)
    ensures Draining(ready, [], units) && AllDrainedWell(ready, replies, units)
    ensures Listed(7, Some(1)) in ready && forall k :: 0 <= k < |units| ==> 7 !in units[k].membership
  {
    var issue := Listed(7, Some(1));
    ready := [issue];
    replies := Replies(_ => {8}, _ => {}, (_, _) => None);
    units := [Unit(Milestone(1), {8}, {7}, None)];
    assert issue in ready && KeyOf(issue) == units[0].key;
    assert HasKey(units, KeyOf(issue));
    assert (set i | i in ready :: i.number) == {7};
  }

  /** GitHub lists every issue under one key, the same in all its answers. */
  ghost predicate OneHome(home: int -> Key, listed: seq<Listed>, replies: Replies) {
    && (forall i :: i in listed ==> home(i.number) == KeyOf(i))
    && (forall m, n :: n in replies.members(m) || n in replies.orphanMembers(m) ==> home(n) == Milestone(m))
  }

  /** Then no issue is in two units of a cycle, over both phases. */
  lemma InOneUnitOnly(home: int -> Key, ready: seq<Listed>, orphans: seq<Listed>, replies: Replies,
                      drained: seq<Unit>, seeded: seq<Unit>, j: nat, k: nat, n: int)
    requires OneHome(home, ready + orphans, replies)
    requires AllDrainedWell(ready, replies, drained) && Seeding(orphans, replies, drained, seeded, |orphans|)
    requires KeysDiffer(drained + seeded) && j < k < |drained + seeded|
    ensures !(n in (drained + seeded)[j].membership && n in (drained + seeded)[k].membership)
  {
    var units := drained + seeded;
    forall i | (i == j || i == k) && n in units[i].membership ensures units[i].key == home(n) {
      if i < |drained| {
        DrainedAtHome(home, ready, orphans, replies, i, units[i], n);
      } else {
        assert SeededWell(orphans, replies, units[i]);
        SeededAtHome(home, ready, orphans, replies, units[i], n);
      }
    }
  }

  lemma DrainedAtHome(home: int -> Key, ready: seq<Listed>, orphans: seq<Listed>, replies: Replies, step: nat, u: Unit,
                      n: int)
    requires OneHome(home, ready + orphans, replies) && DrainedWell(ready, replies, step, u) && n in u.membership
    ensures u.key == home(n)
  {
    if n in NumbersOf(ready, u.key) {
      var i :| i in ready && KeyOf(i) == u.key && i.number == n;
      assert i in ready + orphans;
    }
  }

  lemma SeededAtHome(home: int -> Key, ready: seq<Listed>, orphans: seq<Listed>, replies: Replies, u: Unit, n: int)
    requires OneHome(home, ready + orphans, replies) && SeededWell(orphans, replies, u) && n in u.membership
    ensures u.key == home(n)
  {
    var o :| o in orphans && KeyOf(o) == u.key
      && u.membership == if o.milestone.Some? && replies.orphanMembers(o.milestone.value) != {}
                         then replies.orphanMembers(o.milestone.value) else {o.number};
    assert o in ready + orphans;
  }
}
