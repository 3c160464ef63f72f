/** The thread pool replaced by an arbitrary sequential interleaving of
    locked sections. Item `i`'s worker records its outcome (`Record(i)`)
    before the coordinator sees that task complete (`Complete(i)`); apart from
    that the events may come in any order. This module proves what the
    counters hold at every point of such an interleaving and at its end. */
module Schedule {
  import opened Counters

  datatype Event = Record(item: nat) | Complete(item: nat)

  ghost predicate Distinct<T>(xs: seq<T>)
  {
    forall i, j :: 0 <= i < j < |xs| ==> xs[i] != xs[j]
  }

  predicate ItemsBelow(s: seq<Event>, n: nat)
  {
    forall j :: 0 <= j < |s| ==> s[j].item < n
  }

  /** An interleaving of the `n` tasks of a run: every task has exactly one
      record and one completion event, and its record comes first. */
  ghost predicate ValidSchedule(s: seq<Event>, n: nat)
  {
    && ItemsBelow(s, n)
    && Distinct(s)
    && (forall i :: 0 <= i < n ==> Record(i) in s && Complete(i) in s)
    && (forall j :: 0 <= j < |s| && s[j].Complete? ==> Record(s[j].item) in s[..j])
  }

  /** The counters right after `SetTotal(n)`. */
  function Start(n: nat): Counts
  {
    Counts(n, 0, 0, 0, 0)
  }

  /** One locked section: a worker bumps its outcome counter, or the
      coordinator counts a completed task. */
  function Step(c: Counts, e: Event, kinds: seq<Counter>): Counts
    requires e.item < |kinds|
  {
    match e
    case Record(i) => Bump(c, kinds[i])
    case Complete(_) => c.(processed := c.processed + 1)
  }

  /** The counters after the locked sections of `s`, in order. */
  function Replay(c: Counts, s: seq<Event>, kinds: seq<Counter>): Counts
    requires ItemsBelow(s, |kinds|)
  {
    if s == [] then c
    else Step(Replay(c, s[..|s| - 1], kinds), s[|s| - 1], kinds)
  }

  /** Occurrences of one counter in a list of outcomes. */
  function Count(xs: seq<Counter>, k: Counter): nat
  {
    if xs == [] then 0
    else Count(xs[..|xs| - 1], k) + (if xs[|xs| - 1] == k then 1 else 0)
  }

  /** The counters of a run whose tasks all finished, task `i` with outcome `kinds[i]`. */
  function Drained(kinds: seq<Counter>): Counts
  {
    Counts(|kinds|, |kinds|, Count(kinds, ConvertedCounter), Count(kinds, SkippedCounter), Count(kinds, ErrorsCounter))
  }

  /** The tasks recorded in `s`, in order. */
  function Recorded(s: seq<Event>): seq<nat>
  {
    if s == [] then []
    else Recorded(s[..|s| - 1]) + (if s[|s| - 1].Record? then [s[|s| - 1].item] else [])
  }

  /** The tasks completed in `s`, in order. */
  function Completed(s: seq<Event>): seq<nat>
  {
    if s == [] then []
    else Completed(s[..|s| - 1]) + (if s[|s| - 1].Complete? then [s[|s| - 1].item] else [])
  }

  predicate Below(xs: seq<nat>, n: nat)
  {
    forall j :: 0 <= j < |xs| ==> xs[j] < n
  }

  /** The outcomes of the tasks `xs`, in that order. */
  function KindsAt(kinds: seq<Counter>, xs: seq<nat>): (r: seq<Counter>)
    requires Below(xs, |kinds|)
    ensures |r| == |xs|
  {
    seq(|xs|, j requires 0 <= j < |xs| => kinds[xs[j]])
  }

  function Range(n: nat): (r: seq<nat>)
    ensures |r| == n && forall j :: 0 <= j < n ==> r[j] == j
  {
    seq(n, j => j)
  }

  // ---------------------------------------------------------------------
  // Counting facts

  lemma CountSnoc(xs: seq<Counter>, y: Counter, k: Counter)
    ensures Count(xs + [y], k) == Count(xs, k) + (if y == k then 1 else 0)
  {
    assert (xs + [y])[..|xs|] == xs;
  }

  /** The counter tallies of a list are the multiplicities of its multiset. */
  lemma {:induction false} CountMultiplicity(xs: seq<Counter>, k: Counter)
    ensures Count(xs, k) == multiset(xs)[k]
  {
    if xs != [] {
      var init := xs[..|xs| - 1];
      CountMultiplicity(init, k);
      assert xs == init + [xs[|xs| - 1]];
    }
  }

  /** The three tallies add up to the number of outcomes. */
  lemma {:induction false} CountSum(xs: seq<Counter>)
    ensures Count(xs, ConvertedCounter) + Count(xs, SkippedCounter) + Count(xs, ErrorsCounter) == |xs|
  {
    if xs != [] {
      CountSum(xs[..|xs| - 1]);
    }
  }

  /** Final counts depend only on the multiset of outcomes, not on their order. */
  lemma DrainedOrderIndependent(a: seq<Counter>, b: seq<Counter>)
    requires multiset(a) == multiset(b)
    ensures Drained(a) == Drained(b)
  {
    assert |a| == |multiset(a)| == |multiset(b)| == |b|;
    CountMultiplicity(a, ConvertedCounter);
    CountMultiplicity(b, ConvertedCounter);
    CountMultiplicity(a, SkippedCounter);
    CountMultiplicity(b, SkippedCounter);
    CountMultiplicity(a, ErrorsCounter);
    CountMultiplicity(b, ErrorsCounter);
  }

  /** A list without repeats whose elements all occur in `b` is no longer than `b`. */
  lemma {:induction false} DistinctIncluded<T>(a: seq<T>, b: seq<T>)
    requires Distinct(a)
    requires forall x :: x in a ==> x in b
    ensures |a| <= |b|
    decreases |a|
  {
    if a != [] {
      var x := a[0];
      assert x in a;
      var j :| 0 <= j < |b| && b[j] == x;
      var rest := b[..j] + b[j + 1..];
      forall y | y in a[1..] ensures y in rest {
        var k :| 1 <= k < |a| && a[k] == y;
        assert y != x;
        assert y in a;
        var m :| 0 <= m < |b| && b[m] == y;
        if m < j {
          assert rest[m] == y;
        } else {
          assert rest[m - 1] == y;
        }
      }
      assert Distinct(a[1..]) by {
        forall p, q | 0 <= p < q < |a| - 1 ensures a[1..][p] != a[1..][q] {
          assert a[1..][p] == a[p + 1] && a[1..][q] == a[q + 1];
        }
      }
      DistinctIncluded(a[1..], rest);
    }
  }

  /** In a list without repeats every element occurs once. */
  lemma {:induction false} DistinctMultiplicity<T>(xs: seq<T>, x: T)
    requires Distinct(xs)
    ensures multiset(xs)[x] == if x in xs then 1 else 0
  {
    if xs != [] {
      var init := xs[..|xs| - 1];
      assert xs == init + [xs[|xs| - 1]];
      DistinctMultiplicity(init, x);
    }
  }

  lemma KindsAtConcat(kinds: seq<Counter>, a: seq<nat>, b: seq<nat>)
    requires Below(a, |kinds|) && Below(b, |kinds|)
    ensures Below(a + b, |kinds|)
    ensures KindsAt(kinds, a + b) == KindsAt(kinds, a) + KindsAt(kinds, b)
  {
    assert Below(a + b, |kinds|) by {
      forall j | 0 <= j < |a + b| ensures (a + b)[j] < |kinds| {
        if j < |a| { assert (a + b)[j] == a[j]; } else { assert (a + b)[j] == b[j - |a|]; }
      }
    }
  }

  /** Taking one task out of a list takes its outcome out of the outcomes. */
  lemma KindsAtRemove(kinds: seq<Counter>, ys: seq<nat>, j: nat)
    requires Below(ys, |kinds|) && j < |ys|
    ensures Below(ys[..j] + ys[j + 1..], |kinds|)
    ensures multiset(ys) == multiset(ys[..j] + ys[j + 1..]) + multiset{ys[j]}
    ensures multiset(KindsAt(kinds, ys)) ==
      multiset(KindsAt(kinds, ys[..j] + ys[j + 1..])) + multiset{kinds[ys[j]]}
  {
    var front, back, x := ys[..j], ys[j + 1..], ys[j];
    assert ys == front + [x] + back;
    assert Below(front, |kinds|) && Below(back, |kinds|) && Below([x], |kinds|) by {
      forall i | 0 <= i < |front| ensures front[i] < |kinds| { assert front[i] == ys[i]; }
      forall i | 0 <= i < |back| ensures back[i] < |kinds| { assert back[i] == ys[j + 1 + i]; }
    }
    KindsAtConcat(kinds, front, back);
    KindsAtConcat(kinds, front, [x]);
    KindsAtConcat(kinds, front + [x], back);
    assert KindsAt(kinds, [x]) == [kinds[x]];
  }

  /** Reordering the tasks reorders their outcomes the same way. */
  lemma {:induction false} KindsAtPermutation(kinds: seq<Counter>, xs: seq<nat>, ys: seq<nat>)
    requires multiset(xs) == multiset(ys)
    requires Below(xs, |kinds|) && Below(ys, |kinds|)
    ensures multiset(KindsAt(kinds, xs)) == multiset(KindsAt(kinds, ys))
    decreases |xs|
  {
    if xs == [] {
      assert |ys| == |multiset(ys)| == 0;
    } else {
      var last := |xs| - 1;
      var x := xs[last];
      assert x in multiset(ys) by {
        assert x in multiset(xs);
      }
      var j :| 0 <= j < |ys| && ys[j] == x;
      var init, rest := xs[..last] + xs[last + 1..], ys[..j] + ys[j + 1..];
      KindsAtRemove(kinds, xs, last);
      KindsAtRemove(kinds, ys, j);
      assert multiset(init) == multiset(rest) by {
        forall z ensures multiset(init)[z] == multiset(rest)[z] {
          assert multiset(xs)[z] == multiset(ys)[z];
        }
      }
      KindsAtPermutation(kinds, init, rest);
    }
  }

  // ---------------------------------------------------------------------
  // Facts about event lists

  lemma RecordedSnoc(s: seq<Event>, e: Event)
    ensures Recorded(s + [e]) == Recorded(s) + (if e.Record? then [e.item] else [])
    ensures Completed(s + [e]) == Completed(s) + (if e.Complete? then [e.item] else [])
  {
    assert (s + [e])[..|s|] == s;
  }

  lemma {:induction false} RecordedMembers(s: seq<Event>, x: nat)
    ensures x in Recorded(s) <==> Record(x) in s
    ensures x in Completed(s) <==> Complete(x) in s
  {
    if s != [] {
      var init := s[..|s| - 1];
      RecordedMembers(init, x);
      assert s == init + [s[|s| - 1]];
    }
  }

  lemma {:induction false} RecordedDistinct(s: seq<Event>)
    requires Distinct(s)
    ensures Distinct(Recorded(s)) && Distinct(Completed(s))
  {
    if s != [] {
      var init, e := s[..|s| - 1], s[|s| - 1];
      assert Distinct(init);
      RecordedDistinct(init);
      assert e !in init;
      RecordedMembers(init, e.item);
    }
  }

  lemma {:induction false} RecordedBelow(s: seq<Event>, n: nat)
    requires ItemsBelow(s, n)
    ensures Below(Recorded(s), n) && Below(Completed(s), n)
  {
    if s != [] {
      RecordedBelow(s[..|s| - 1], n);
    }
  }

  /** Recording outcome `y` adds it to the outcome counts. */
  lemma BumpCounts(c: Counts, done: nat, got: seq<Counter>, y: Counter)
    ensures Bump(Counts(c.total, c.processed + done, c.converted + Count(got, ConvertedCounter),
        c.skipped + Count(got, SkippedCounter), c.errors + Count(got, ErrorsCounter)), y)
      == Counts(c.total, c.processed + done, c.converted + Count(got + [y], ConvertedCounter),
        c.skipped + Count(got + [y], SkippedCounter), c.errors + Count(got + [y], ErrorsCounter))
  {
    CountSnoc(got, y, ConvertedCounter);
    CountSnoc(got, y, SkippedCounter);
    CountSnoc(got, y, ErrorsCounter);
  }

  /** The replayed counters, read off the recorded and completed tasks. */
  lemma {:induction false} ReplayShape(c: Counts, s: seq<Event>, kinds: seq<Counter>)
    requires ItemsBelow(s, |kinds|)
    ensures Below(Recorded(s), |kinds|)
    ensures Below(Recorded(s), |kinds|) &&
      var got := KindsAt(kinds, Recorded(s));
      Replay(c, s, kinds) == Counts(
        c.total,
        c.processed + |Completed(s)|,
        c.converted + Count(got, ConvertedCounter),
        c.skipped + Count(got, SkippedCounter),
        c.errors + Count(got, ErrorsCounter))
  {
    RecordedBelow(s, |kinds|);
    if s != [] {
      var init, e := s[..|s| - 1], s[|s| - 1];
      assert ItemsBelow(init, |kinds|);
      ReplayShape(c, init, kinds);
      RecordedBelow(init, |kinds|);
      var before := KindsAt(kinds, Recorded(init));
      if e.Record? {
        assert Recorded(s) == Recorded(init) + [e.item];
        KindsAtConcat(kinds, Recorded(init), [e.item]);
        var y := kinds[e.item];
        assert KindsAt(kinds, [e.item]) == [y];
        assert KindsAt(kinds, Recorded(s)) == before + [y];
        assert Replay(c, s, kinds) == Bump(Replay(c, init, kinds), y);
        BumpCounts(c, |Completed(init)|, before, y);
      } else {
        assert Recorded(s) == Recorded(init);
        assert |Completed(s)| == |Completed(init)| + 1;
      }
    }
  }

  // ---------------------------------------------------------------------
  // The two properties of a run

  /** At every point of an interleaving, the coordinator's count trails the
      workers' outcome counts, which never exceed the number of files. */
  lemma ReplayConsistent(s: seq<Event>, kinds: seq<Counter>, k: nat)
    requires ValidSchedule(s, |kinds|) && k <= |s|
    ensures ItemsBelow(s[..k], |kinds|)
    ensures Replay(Start(|kinds|), s[..k], kinds).Consistent()
    ensures Replay(Start(|kinds|), s[..k], kinds).total == |kinds|
  {
    var n, p := |kinds|, s[..k];
    assert ItemsBelow(p, n);
    assert Distinct(p);
    ReplayShape(Start(n), p, kinds);
    RecordedDistinct(p);
    CountSum(KindsAt(kinds, Recorded(p)));
    PrefixCompletedRecorded(s, n, k);
    DistinctIncluded(Completed(p), Recorded(p));
    forall x | x in Recorded(p) ensures x in Range(n) {
      assert Range(n)[x] == x;
    }
    DistinctIncluded(Recorded(p), Range(n));
  }

  /** One more locked section extends the replayed prefix by one step. */
  lemma ReplayPrefixStep(s: seq<Event>, kinds: seq<Counter>, i: nat)
    requires ItemsBelow(s, |kinds|) && i < |s|
    ensures s[i].item < |kinds|
    ensures ItemsBelow(s[..i], |kinds|) && ItemsBelow(s[..i + 1], |kinds|)
    ensures Replay(Start(|kinds|), s[..i + 1], kinds) == Step(Replay(Start(|kinds|), s[..i], kinds), s[i], kinds)
  {
    var p := s[..i + 1];
    assert |p| - 1 == i && p[i] == s[i];
    assert p[..i] == s[..i];
  }

  /** In every prefix, each completed task was recorded earlier. */
  lemma PrefixCompletedRecorded(s: seq<Event>, n: nat, k: nat)
    requires ValidSchedule(s, n) && k <= |s|
    ensures forall x :: x in Completed(s[..k]) ==> x in Recorded(s[..k])
  {
    var p := s[..k];
    forall x | x in Completed(p) ensures x in Recorded(p) {
      RecordedMembers(p, x);
      var j :| 0 <= j < k && p[j] == Complete(x);
      assert s[j] == Complete(x);
      assert Record(x) in s[..j];
      assert s[..j] == p[..j];
    }
  }

  /** After the whole interleaving, every task is recorded and completed once. */
  lemma AllTasksSeen(s: seq<Event>, n: nat)
    requires ValidSchedule(s, n)
    ensures |Completed(s)| == n
    ensures multiset(Recorded(s)) == multiset(Range(n))
  {
    RecordedBelow(s, n);
    RecordedDistinct(s);
    forall x | x in Range(n) ensures x in Completed(s) && x in Recorded(s) {
      RecordedMembers(s, x);
    }
    forall x | x in Completed(s) || x in Recorded(s) ensures x in Range(n) {
      assert Range(n)[x] == x;
    }
    DistinctIncluded(Completed(s), Range(n));
    DistinctIncluded(Range(n), Completed(s));
    forall x ensures multiset(Recorded(s))[x] == multiset(Range(n))[x] {
      DistinctMultiplicity(Recorded(s), x);
      DistinctMultiplicity(Range(n), x);
    }
  }

  /** Once the pool has drained, the counters are those of the outcome
      multiset: `processed == total`, and the three outcome counters add up
      to it, whatever the interleaving. */
  lemma ReplayDrains(s: seq<Event>, kinds: seq<Counter>)
    requires ValidSchedule(s, |kinds|)
    ensures Replay(Start(|kinds|), s, kinds) == Drained(kinds)
  {
    var n := |kinds|;
    ReplayShape(Start(n), s, kinds);
    AllTasksSeen(s, n);
    assert Below(Range(n), n);
    KindsAtPermutation(kinds, Recorded(s), Range(n));
    assert KindsAt(kinds, Range(n)) == kinds;
    var got := KindsAt(kinds, Recorded(s));
    CountMultiplicity(got, ConvertedCounter);
    CountMultiplicity(kinds, ConvertedCounter);
    CountMultiplicity(got, SkippedCounter);
    CountMultiplicity(kinds, SkippedCounter);
    CountMultiplicity(got, ErrorsCounter);
    CountMultiplicity(kinds, ErrorsCounter);
  }
}
