/**
  Automatic package generation: greedy clustering of the scene's shapes by similarity.

  The remaining shapes form a list. Each round pops its last shape as the seed of a new
  cluster, then scans the rest with an index that only moves past a shape that is not similar
  to the seed; similar shapes are popped from the list and join the cluster. The host's shape
  comparison is the parameter `similar`; the progress bar's cancel button is the parameter
  `cancel`, read as "is cancellation requested at the k-th poll".
*/
module Clustering {
  import opened Common
  import opened IteratedRemoval

  /** The shapes that compare as similar to `seed`. */
  function SimilarTo(seed: string, similar: (string, string) -> bool): string -> bool {
    (s: string) => similar(seed, s)
  }

  /** The shapes that do not. */
  function NotSimilarTo(seed: string, similar: (string, string) -> bool): string -> bool {
    (s: string) => !similar(seed, s)
  }

  /**
    One uninterrupted round: the last shape is the seed; the cluster is the seed followed by
    every other shape similar to it, in list order; the others stay, in list order.
  */
  function Split(pool: seq<string>, similar: (string, string) -> bool): (r: (seq<string>, seq<string>))
    requires pool != []
    ensures |r.1| < |pool|
  {
    var seed := pool[|pool| - 1];
    var rest := pool[..|pool| - 1];
    ([seed] + Filter(rest, SimilarTo(seed, similar)), Filter(rest, NotSimilarTo(seed, similar)))
  }

  /** Uninterrupted clustering: rounds until no shape is left. */
  function Clusters(pool: seq<string>, similar: (string, string) -> bool): seq<seq<string>>
    decreases |pool|
  {
    if pool == [] then []
    else
      var split := Split(pool, similar);
      [split.0] + Clusters(split.1, similar)
  }

  function Flatten(groups: seq<seq<string>>): seq<string> {
    if groups == [] then [] else groups[0] + Flatten(groups[1..])
  }

  /**
    How many shapes one scan examines when its first poll is number `poll`: the scan stops at
    the first poll that asks for cancellation, or after `n` shapes.
  */
  function ScanLength(cancel: nat -> bool, poll: nat, n: nat): (e: nat)
    ensures e <= n
    ensures forall k :: poll <= k < poll + e ==> !cancel(k)
    ensures e < n ==> cancel(poll + e)
    decreases n
  {
    if n == 0 || cancel(poll) then 0 else 1 + ScanLength(cancel, poll + 1, n - 1)
  }

  /**
    One round whose scan starts at poll number `poll`: the last shape is the seed, and the scan
    examines shapes in list order until a poll asks for cancellation. The result is the group,
    the list left for the next round (the shapes the scan passed over, then those it never
    reached), and the number of the next poll.
  */
  function Round(pool: seq<string>, similar: (string, string) -> bool, cancel: nat -> bool, poll: nat)
    : (r: (seq<string>, seq<string>, nat))
    requires pool != []
  {
    var seed := pool[|pool| - 1];
    var rest := pool[..|pool| - 1];
    var e := ScanLength(cancel, poll, |rest|);
    ([seed] + Filter(rest[..e], SimilarTo(seed, similar)),
     Filter(rest[..e], NotSimilarTo(seed, similar)) + rest[e..],
     poll + e + (if e < |rest| then 1 else 0))
  }

  /**
    The groups the generator produces, cancellation included. `rounds` is the number of rounds
    the outer loop allows; `poll` numbers the next cancellation poll. Each round polls once
    before it starts; a scan cut short by cancellation leaves its group partial and the
    unexamined shapes in the list, and the next round polls again.
  */
  function Rounds(pool: seq<string>, similar: (string, string) -> bool, cancel: nat -> bool, poll: nat, rounds: nat)
    : seq<seq<string>>
    decreases rounds
  {
    if rounds == 0 || cancel(poll) || pool == [] then []
    else
      var round := Round(pool, similar, cancel, poll + 1);
      [round.0] + Rounds(round.1, similar, cancel, round.2, rounds - 1)
  }

  /** A group as a round builds it: a seed first, and after it only shapes similar to the seed. */
  predicate SeededGroup(group: seq<string>, similar: (string, string) -> bool) {
    |group| > 0 && forall k :: 0 < k < |group| ==> similar(group[0], group[k])
  }

  /* ---------------- Filters split a list ---------------- */

  lemma {:induction false} FilterSplit(s: seq<string>, seed: string, similar: (string, string) -> bool)
    ensures multiset(Filter(s, SimilarTo(seed, similar))) + multiset(Filter(s, NotSimilarTo(seed, similar))) == multiset(s)
  {
    if s != [] {
      FilterSplit(s[1..], seed, similar);
      FilterCons(s, SimilarTo(seed, similar));
      FilterCons(s, NotSimilarTo(seed, similar));
      ConsParts(s[0], s[1..]);
      assert s == [s[0]] + s[1..];
    }
  }

  lemma {:induction false} FilterDistinct(s: seq<string>, keep: string -> bool)
    requires Distinct(s)
    ensures Distinct(Filter(s, keep))
  {
    if s != [] {
      FilterDistinct(s[1..], keep);
      FilterMembership(s[1..], keep, s[0]);
      FilterCons(s, keep);
    }
  }

  /** A seed followed by the shapes similar to it is a seeded group. */
  lemma NearSeeded(s: seq<string>, seed: string, similar: (string, string) -> bool)
    ensures SeededGroup([seed] + Filter(s, SimilarTo(seed, similar)), similar)
  {
    var near := Filter(s, SimilarTo(seed, similar));
    forall k | 0 < k < |[seed] + near|
      ensures similar(seed, ([seed] + near)[k])
    {
      FilterMembership(s, SimilarTo(seed, similar), near[k - 1]);
    }
  }

  /* ---------------- One round ---------------- */

  /**
    An uninterrupted round: the cluster starts with the last shape, the rest of the cluster
    holds exactly the other shapes similar to it, the list left holds exactly those not similar
    to it, and between them they hold every shape of the list as often as it occurs there.
  */
  lemma SplitParts(pool: seq<string>, similar: (string, string) -> bool, x: string)
    requires pool != []
    ensures var seed := pool[|pool| - 1];
      var split := Split(pool, similar);
      && split.0[0] == seed
      && (x in split.0[1..] <==> x in pool[..|pool| - 1] && similar(seed, x))
      && (x in split.1 <==> x in pool[..|pool| - 1] && !similar(seed, x))
      && SeededGroup(split.0, similar)
      && multiset(split.0) + multiset(split.1) == multiset(pool)
  {
    var seed := pool[|pool| - 1];
    var rest := pool[..|pool| - 1];
    var near := Filter(rest, SimilarTo(seed, similar));
    ConsParts(seed, near);
    FilterMembership(rest, SimilarTo(seed, similar), x);
    FilterMembership(rest, NotSimilarTo(seed, similar), x);
    NearSeeded(rest, seed, similar);
    FilterSplit(rest, seed, similar);
    ButLast(pool);
  }

  /**
    A round, cancelled or not: the group is a seeded group, and the group and the list left
    between them hold every shape of the list as often as it occurs there.
  */
  lemma RoundParts(pool: seq<string>, similar: (string, string) -> bool, cancel: nat -> bool, poll: nat)
    requires pool != []
    ensures var round := Round(pool, similar, cancel, poll);
      && round.0[0] == pool[|pool| - 1]
      && SeededGroup(round.0, similar)
      && multiset(round.0) + multiset(round.1) == multiset(pool)
  {
    var seed := pool[|pool| - 1];
    var rest := pool[..|pool| - 1];
    var e := ScanLength(cancel, poll, |rest|);
    NearSeeded(rest[..e], seed, similar);
    FilterSplit(rest[..e], seed, similar);
    TakeDrop(rest, e);
    ButLast(pool);
    RoundJoin(seed, Filter(rest[..e], SimilarTo(seed, similar)), Filter(rest[..e], NotSimilarTo(seed, similar)),
              rest[..e], rest[e..], rest, pool);
  }

  lemma RoundJoin(seed: string, near: seq<string>, far: seq<string>, done: seq<string>, todo: seq<string>,
                  rest: seq<string>, pool: seq<string>)
    requires multiset(near) + multiset(far) == multiset(done)
    requires done + todo == rest && rest + [seed] == pool
    ensures multiset([seed] + near) + multiset(far + todo) == multiset(pool)
  {
  }

  /** A round that no poll cancels is an uninterrupted round. */
  lemma RoundUncancelled(pool: seq<string>, similar: (string, string) -> bool, cancel: nat -> bool, poll: nat)
    requires pool != [] && forall k :: !cancel(k)
    ensures Round(pool, similar, cancel, poll).0 == Split(pool, similar).0
    ensures Round(pool, similar, cancel, poll).1 == Split(pool, similar).1
  {
    var rest := pool[..|pool| - 1];
    assert ScanLength(cancel, poll, |rest|) == |rest|;
    TakeAll(rest);
    AppendEmpty(Filter(rest, NotSimilarTo(pool[|pool| - 1], similar)));
  }

  lemma ClustersCons(pool: seq<string>, similar: (string, string) -> bool)
    requires pool != []
    ensures Clusters(pool, similar) == [Split(pool, similar).0] + Clusters(Split(pool, similar).1, similar)
  {
  }

  lemma RoundsCons(pool: seq<string>, similar: (string, string) -> bool, cancel: nat -> bool, poll: nat, rounds: nat)
    requires rounds != 0 && !cancel(poll) && pool != []
    ensures var round := Round(pool, similar, cancel, poll + 1);
      Rounds(pool, similar, cancel, poll, rounds) == [round.0] + Rounds(round.1, similar, cancel, round.2, rounds - 1)
  {
  }

  /** One more round: the groups made so far, then this round's group, then the groups still to come. */
  lemma RoundsStep(done: seq<seq<string>>, pool: seq<string>, similar: (string, string) -> bool, cancel: nat -> bool,
                   poll: nat, rounds: nat, group: seq<string>, left: seq<string>, next: nat)
    requires rounds != 0 && !cancel(poll) && pool != []
    requires (group, left, next) == Round(pool, similar, cancel, poll + 1)
    ensures (done + [group]) + Rounds(left, similar, cancel, next, rounds - 1)
         == done + Rounds(pool, similar, cancel, poll, rounds)
  {
    RoundsCons(pool, similar, cancel, poll, rounds);
    AppendAssoc(done, [group], Rounds(left, similar, cancel, next, rounds - 1));
  }

  /** Generation stops when the rounds run out, a poll cancels, or the list is empty. */
  lemma RoundsDone(done: seq<seq<string>>, pool: seq<string>, similar: (string, string) -> bool, cancel: nat -> bool,
                   poll: nat, rounds: nat)
    requires rounds == 0 || cancel(poll) || pool == []
    ensures done + Rounds(pool, similar, cancel, poll, rounds) == done
  {
    AppendEmpty(done);
  }

  lemma FlattenCons(g: seq<string>, gs: seq<seq<string>>)
    ensures Flatten([g] + gs) == g + Flatten(gs)
  {
    ConsParts(g, gs);
  }

  lemma {:induction false} FlattenMember(groups: seq<seq<string>>, j: nat, x: string)
    requires j < |groups| && x in groups[j]
    ensures x in Flatten(groups)
  {
    if j > 0 {
      FlattenMember(groups[1..], j - 1, x);
    }
  }

  /* ---------------- Uninterrupted clustering ---------------- */

  /** The clusters take every shape of the list, each as often as it occurs there. */
  lemma {:induction false} ClustersPartition(pool: seq<string>, similar: (string, string) -> bool)
    ensures multiset(Flatten(Clusters(pool, similar))) == multiset(pool)
    decreases |pool|
  {
    if pool != [] {
      var split := Split(pool, similar);
      SplitParts(pool, similar, pool[0]);
      FlattenCons(split.0, Clusters(split.1, similar));
      ClustersPartition(split.1, similar);
    }
  }

  /** Each cluster is its seed followed by shapes similar to that seed. */
  lemma {:induction false} ClustersSeeded(pool: seq<string>, similar: (string, string) -> bool)
    ensures forall j :: 0 <= j < |Clusters(pool, similar)| ==> SeededGroup(Clusters(pool, similar)[j], similar)
    decreases |pool|
  {
    if pool != [] {
      var split := Split(pool, similar);
      SplitParts(pool, similar, pool[0]);
      ClustersSeeded(split.1, similar);
    }
  }

  /**
    The first cluster's seed is the last shape of the list; the rest of that cluster is exactly
    the other shapes similar to it, and the later clusters hold exactly the other shapes not
    similar to it.
  */
  lemma FirstCluster(pool: seq<string>, similar: (string, string) -> bool, x: string)
    requires pool != []
    ensures Clusters(pool, similar)[0][0] == pool[|pool| - 1]
    ensures x in Clusters(pool, similar)[0][1..] <==> x in pool[..|pool| - 1] && similar(pool[|pool| - 1], x)
    ensures x in Flatten(Clusters(pool, similar)[1..]) <==> x in pool[..|pool| - 1] && !similar(pool[|pool| - 1], x)
  {
    var split := Split(pool, similar);
    SplitParts(pool, similar, x);
    ConsParts(split.0, Clusters(split.1, similar));
    ClustersPartition(split.1, similar);
    assert x in Flatten(Clusters(split.1, similar)) <==> x in multiset(split.1);
  }

  /** Every shape placed in a later cluster is not similar to an earlier cluster's seed. */
  lemma {:induction false} LeftBehindNotSimilar(pool: seq<string>, similar: (string, string) -> bool, i: nat, j: nat, x: string)
    requires i < j < |Clusters(pool, similar)| && x in Clusters(pool, similar)[j]
    ensures |Clusters(pool, similar)[i]| > 0 && !similar(Clusters(pool, similar)[i][0], x)
    decreases |pool|
  {
    var split := Split(pool, similar);
    var later := Clusters(split.1, similar);
    assert Clusters(pool, similar)[j] == later[j - 1];
    if i == 0 {
      FlattenMember(later, j - 1, x);
      ClustersPartition(split.1, similar);
      assert x in multiset(split.1);
      SplitParts(pool, similar, x);
    } else {
      assert Clusters(pool, similar)[i] == later[i - 1];
      LeftBehindNotSimilar(split.1, similar, i - 1, j - 1, x);
    }
  }

  /* ---------------- Cancellation ---------------- */

  /** With no cancellation and enough rounds, generation produces the uninterrupted clusters. */
  lemma {:induction false} RoundsUncancelled(pool: seq<string>, similar: (string, string) -> bool, cancel: nat -> bool,
                                              poll: nat, rounds: nat)
    requires forall k :: !cancel(k)
    requires |pool| <= rounds
    ensures Rounds(pool, similar, cancel, poll, rounds) == Clusters(pool, similar)
    decreases rounds
  {
    if pool != [] {
      var round := Round(pool, similar, cancel, poll + 1);
      var split := Split(pool, similar);
      RoundsCons(pool, similar, cancel, poll, rounds);
      ClustersCons(pool, similar);
      RoundUncancelled(pool, similar, cancel, poll + 1);
      RoundsUncancelled(round.1, similar, cancel, round.2, rounds - 1);
    }
  }

  /** Whatever the cancellation polls answer, every group is a seed followed by shapes similar to it. */
  lemma {:induction false} RoundsSeeded(pool: seq<string>, similar: (string, string) -> bool, cancel: nat -> bool,
                                         poll: nat, rounds: nat)
    ensures forall j :: 0 <= j < |Rounds(pool, similar, cancel, poll, rounds)| ==>
              SeededGroup(Rounds(pool, similar, cancel, poll, rounds)[j], similar)
    decreases rounds
  {
    if rounds != 0 && !cancel(poll) && pool != [] {
      var round := Round(pool, similar, cancel, poll + 1);
      RoundParts(pool, similar, cancel, poll + 1);
      RoundsSeeded(round.1, similar, cancel, round.2, rounds - 1);
    }
  }

  /**
    One round's scan over `pool`, the list left after the seed was popped. `i` only moves past
    a shape that is not similar to the seed; a similar shape is popped, so the next shape slides
    into slot `i`. The scan runs at most `|pool|` turns and polls for cancellation before each.
  */
  method ScanForSimilar(pool: seq<string>, seed: string, similar: (string, string) -> bool, cancel: nat -> bool, poll: nat)
    returns (members: seq<string>, rest: seq<string>, nextPoll: nat)
    ensures var e := ScanLength(cancel, poll, |pool|);
      && members == Filter(pool[..e], SimilarTo(seed, similar))
      && rest == Filter(pool[..e], NotSimilarTo(seed, similar)) + pool[e..]
      && nextPoll == poll + e + (if e < |pool| then 1 else 0)
  {
    members, rest, nextPoll := [], pool, poll;
    var i := 0;
    var turn := 0;
    assert pool[..0] == [] && pool[0..] == pool;
    while turn < |pool|
      invariant turn <= |pool|
      invariant forall k :: poll <= k < poll + turn ==> !cancel(k)
      invariant nextPoll == poll + turn
      invariant Scanning(pool, seed, similar, turn, members, rest, i)
    {
      var stop := cancel(nextPoll);
      if stop {
        ScanLengthAt(cancel, poll, |pool|, turn);
        nextPoll := nextPoll + 1;
        return;
      }
      nextPoll := nextPoll + 1;
      ScanTurn(pool, seed, similar, turn, members, rest, i);
      if i >= |rest| {
        // The source breaks here; the list always holds |pool| - turn shapes from `i` on.
        assert false;
      }
      if similar(seed, rest[i]) {
        members := members + [rest[i]];
        rest := rest[..i] + rest[i + 1..];
      } else {
        i := i + 1;
      }
      turn := turn + 1;
    }
    ScanLengthAt(cancel, poll, |pool|, turn);
    TakeAll(pool);
    AppendEmpty(rest);
  }

  /**
    The scan after `turn` turns: the shapes popped so far, the list with the shapes passed over
    before slot `i` and the unexamined ones from there on.
  */
  ghost predicate Scanning(pool: seq<string>, seed: string, similar: (string, string) -> bool, turn: nat,
                           members: seq<string>, rest: seq<string>, i: nat)
    requires turn <= |pool|
  {
    && members == Filter(pool[..turn], SimilarTo(seed, similar))
    && rest == Filter(pool[..turn], NotSimilarTo(seed, similar)) + pool[turn..]
    && i == |Filter(pool[..turn], NotSimilarTo(seed, similar))|
  }

  /** One turn of the scan: slot `i` holds the next shape, and popping or passing it keeps the scan's state. */
  lemma ScanTurn(pool: seq<string>, seed: string, similar: (string, string) -> bool, turn: nat,
                 members: seq<string>, rest: seq<string>, i: nat)
    requires turn < |pool| && Scanning(pool, seed, similar, turn, members, rest, i)
    ensures i < |rest| && rest[i] == pool[turn]
    ensures similar(seed, rest[i]) ==>
      Scanning(pool, seed, similar, turn + 1, members + [rest[i]], rest[..i] + rest[i + 1..], i)
    ensures !similar(seed, rest[i]) ==> Scanning(pool, seed, similar, turn + 1, members, rest, i + 1)
  {
    ScanStep(pool, turn, seed, similar);
    ScanShift(Filter(pool[..turn], NotSimilarTo(seed, similar)), pool, turn);
  }

  /** A round: pop the last shape as the seed, then scan the shapes before it for similar ones. */
  method NextRound(pool: seq<string>, similar: (string, string) -> bool, cancel: nat -> bool, poll: nat)
    returns (group: seq<string>, left: seq<string>, nextPoll: nat)
    requires pool != []
    ensures (group, left, nextPoll) == Round(pool, similar, cancel, poll)
  {
    var seed := pool[|pool| - 1];
    var members;
    members, left, nextPoll := ScanForSimilar(pool[..|pool| - 1], seed, similar, cancel, poll);
    group := [seed] + members;
  }

  /** A scan that passed `turn` polls and then stopped, by cancellation or at the end, examined `turn` shapes. */
  lemma {:induction false} ScanLengthAt(cancel: nat -> bool, poll: nat, n: nat, turn: nat)
    requires turn <= n
    requires forall k :: poll <= k < poll + turn ==> !cancel(k)
    requires turn == n || cancel(poll + turn)
    ensures ScanLength(cancel, poll, n) == turn
    decreases turn
  {
    if turn > 0 {
      ScanLengthAt(cancel, poll + 1, n - 1, turn - 1);
    }
  }

  /** What examining the shape at position `turn` adds to each filter. */
  lemma ScanStep(pool: seq<string>, turn: nat, seed: string, similar: (string, string) -> bool)
    requires turn < |pool|
    ensures var x := pool[turn];
      && Filter(pool[..turn + 1], SimilarTo(seed, similar))
         == Filter(pool[..turn], SimilarTo(seed, similar)) + (if similar(seed, x) then [x] else [])
      && Filter(pool[..turn + 1], NotSimilarTo(seed, similar))
         == Filter(pool[..turn], NotSimilarTo(seed, similar)) + (if similar(seed, x) then [] else [x])
  {
    assert pool[..turn + 1] == pool[..turn] + [pool[turn]];
    FilterAppend(pool[..turn], [pool[turn]], SimilarTo(seed, similar));
    FilterAppend(pool[..turn], [pool[turn]], NotSimilarTo(seed, similar));
  }

  /** The list during a scan: popping the examined shape, or stepping past it. */
  lemma ScanShift(far: seq<string>, pool: seq<string>, turn: nat)
    requires turn < |pool|
    ensures var r := far + pool[turn..];
      && r[|far|] == pool[turn]
      && r[..|far|] + r[|far| + 1..] == far + pool[turn + 1..]
      && r == (far + [pool[turn]]) + pool[turn + 1..]
  {
    var r := far + pool[turn..];
    assert r[..|far|] == far;
    assert r[|far| + 1..] == pool[turn + 1..];
  }
}
