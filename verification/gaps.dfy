/** The ranges of a compaction's inputs leave no gap: what a flush relies on that runs while the compaction does (version_set.cc). */
module Gaps {
  import opened Bytestrings
  import opened Format
  import opened Versions
  import opened Inputs
  import opened CompactionInputs

  predicate Holds(f: File, x: UserKey) {
    f.smallest.user <= x <= f.largest.user
  }

  /** Whatever lies between two of the files lies in one of them. */
  ghost predicate Gapless(files: seq<File>) {
    forall x, p, q :: p in files && q in files && p.smallest.user <= x <= q.largest.user ==> Held(files, x)
  }

  ghost predicate Held(files: seq<File>, x: UserKey) {
    exists f :: f in files && Holds(f, x)
  }

  lemma OneFileIsGapless(f: File)
    ensures Gapless([f])
  {
    forall x, p, q | p in [f] && q in [f] && p.smallest.user <= x <= q.largest.user ensures Held([f], x) {
      assert f in [f] && Holds(f, x);
    }
  }

  lemma Between(files: seq<File>, p: File, q: File, x: UserKey)
    requires Gapless(files) && p in files && q in files && p.smallest.user <= x <= q.largest.user
    ensures Held(files, x)
  {
  }

  /** The files span [min, max]. */
  ghost predicate Spans(files: seq<File>, min: UserKey, max: UserKey) {
    && (exists f :: f in files && f.smallest.user == min) && (exists f :: f in files && f.largest.user == max)
    && forall f :: f in files ==> min <= f.smallest.user && f.largest.user <= max
  }

  /** Files that all meet the range of gapless ones leave no gap with them. */
  lemma MeetingKeepsGapless(files: seq<File>, more: seq<File>, min: UserKey, max: UserKey)
    requires Gapless(files) && Spans(files, min, max) && min <= max
    requires forall f :: f in more ==> f.smallest.user <= max && min <= f.largest.user
    ensures Gapless(files + more)
  {
    var all := files + more;
    forall x, p, q | p in all && q in all && p.smallest.user <= x <= q.largest.user ensures Held(all, x) {
      if x > max {
        assert q in more && Holds(q, x);
      } else if x < min {
        assert p in more && Holds(p, x);
      } else {
        var a :| a in files && a.smallest.user == min;
        var b :| b in files && b.largest.user == max;
        assert Held(files, x);
        var f :| f in files && Holds(f, x);
        assert f in all;
      }
    }
  }

  ghost predicate SameFiles(a: seq<File>, b: seq<File>) {
    forall f :: f in a <==> f in b
  }

  lemma GaplessBySet(a: seq<File>, b: seq<File>)
    requires Gapless(a) && SameFiles(a, b)
    ensures Gapless(b)
  {
    forall x, p, q | p in b && q in b && p.smallest.user <= x <= q.largest.user ensures Held(b, x) {
      assert p in a && q in a && Held(a, x);
      var f :| f in a && Holds(f, x);
    }
  }

  /** A boundary file starts in the user key an earlier one ends in. */
  lemma {:induction false} ChainKeepsGapless(files: seq<File>, base: seq<File>, chosen: seq<File>)
    requires Gapless(files + base) && Chained(base, chosen) && (forall f :: f in chosen ==> FileOk(f))
    ensures Gapless(files + chosen)
    decreases |chosen|
  {
    if |chosen| == |base| {
      assert chosen == base;
    } else {
      var init, last := chosen[..|chosen| - 1], chosen[|chosen| - 1];
      ChainShortens(base, chosen);
      ChainKeepsGapless(files, base, init);
      assert LinkedTo(chosen, |chosen| - 1);
      var j :| 0 <= j < |chosen| - 1 && chosen[j].largest.user == last.smallest.user;
      assert init[j] == chosen[j] && chosen[j] in chosen && last in chosen;
      EndsAreEntries(last);
      EndsAreEntries(chosen[j]);
      TouchingKeepsGapless(files + init, chosen[j], last);
      assert files + init + [last] == files + chosen;
    }
  }

  lemma ChainShortens(base: seq<File>, chosen: seq<File>)
    requires Chained(base, chosen) && |chosen| > |base|
    ensures Chained(base, chosen[..|chosen| - 1])
  {
    var init := chosen[..|chosen| - 1];
    forall i | |base| <= i < |init| ensures LinkedTo(init, i) {
      assert LinkedTo(chosen, i);
      var j :| 0 <= j < i && chosen[j].largest.user == chosen[i].smallest.user;
      assert init[j].largest.user == init[i].smallest.user;
    }
  }

  lemma TouchingKeepsGapless(files: seq<File>, g: File, f: File)
    requires Gapless(files) && g in files && g.largest.user == f.smallest.user
    requires g.smallest.user <= g.largest.user && f.smallest.user <= f.largest.user
    ensures Gapless(files + [f])
  {
    var all := files + [f];
    forall x, p, q | p in all && q in all && p.smallest.user <= x <= q.largest.user ensures Held(all, x) {
      assert f in all;
      if !Holds(f, x) {
        if x > f.largest.user {
          assert q in files;
          assert p in files || g.smallest.user <= x;
          assert Held(files, x);
        } else {
          assert p in files && x <= g.largest.user;
          assert Held(files, x);
        }
        var h :| h in files && Holds(h, x);
        assert h in all;
      }
    }
  }

  /** The closure that GetOverlappingInputs takes on level 0 leaves no gap with the files it starts from. */
  lemma ClosureIsGapless(files: seq<File>, from: seq<File>, min: UserKey, max: UserKey, lo: Option<UserKey>, hi: Option<UserKey>)
    requires Gapless(from) && Spans(from, min, max) && min <= max && (forall f :: f in files ==> FileOk(f))
    requires Within(Some(min), Some(max), lo, hi) && Settled(files, lo, hi) && Needed(files, Some(min), Some(max), lo, hi)
    requires lo.Some? && hi.Some?
    ensures Gapless(from + Picked(files, lo, hi))
  {
    var picked := Picked(files, lo, hi);
    var all := from + picked;
    forall x, p, q | p in all && q in all && p.smallest.user <= x <= q.largest.user ensures Held(all, x) {
      if min <= x <= max {
        HeldWithin(from, min, max, x);
        var f :| f in from && Holds(f, x);
        assert f in all && Holds(f, x);
      } else if x > max {
        NoGapAbove(files, from, min, max, lo, hi, x, q);
      } else {
        NoGapBelow(files, from, min, max, lo, hi, x, p);
      }
    }
  }

  lemma HeldWithin(files: seq<File>, min: UserKey, max: UserKey, x: UserKey)
    requires Gapless(files) && Spans(files, min, max) && min <= x <= max
    ensures Held(files, x)
  {
    var a :| a in files && a.smallest.user == min;
    var b :| b in files && b.largest.user == max;
  }

  /** The largest of max and the ends of the files that end before x. */
  lemma {:induction false} LastEndBefore(files: seq<File>, max: UserKey, x: UserKey) returns (e: UserKey)
    requires max < x
    ensures max <= e < x && forall f :: f in files && f.largest.user < x ==> f.largest.user <= e
  {
    if files == [] {
      e := max;
    } else {
      var init, last := files[..|files| - 1], files[|files| - 1];
      e := LastEndBefore(init, max, x);
      if e < last.largest.user < x { e := last.largest.user; }
      assert files == init + [last];
    }
  }

  lemma {:induction false} FirstStartAfter(files: seq<File>, min: UserKey, x: UserKey) returns (s: UserKey)
    requires x < min
    ensures x < s <= min && forall f :: f in files && f.smallest.user > x ==> f.smallest.user >= s
  {
    if files == [] {
      s := min;
    } else {
      var init, last := files[..|files| - 1], files[|files| - 1];
      s := FirstStartAfter(init, min, x);
      if x < last.smallest.user < s { s := last.smallest.user; }
      assert files == init + [last];
    }
  }

  lemma NoGapAbove(files: seq<File>, from: seq<File>, min: UserKey, max: UserKey, lo: Option<UserKey>, hi: Option<UserKey>,
                   x: UserKey, q: File)
    requires Spans(from, min, max) && min <= max < x && (forall f :: f in files ==> FileOk(f))
    requires Within(Some(min), Some(max), lo, hi) && Settled(files, lo, hi) && Needed(files, Some(min), Some(max), lo, hi)
    requires lo.Some? && hi.Some? && q in from + Picked(files, lo, hi) && x <= q.largest.user
    ensures Held(from + Picked(files, lo, hi), x)
  {
    var picked := Picked(files, lo, hi);
    if !Held(from + picked, x) {
      assert q in picked;
      PickedHas(files, lo, hi, q);
      var e := LastEndBefore(files, max, x);
      forall f | f in files && Overlaps(f, lo, Some(e)) ensures Inside(f, lo, Some(e)) {
        EndsAreEntries(f);
        PickedHas(files, lo, hi, f);
        assert f in picked && f in from + picked && !Holds(f, x);
      }
      assert Within(Some(min), Some(max), lo, Some(e)) && Settled(files, lo, Some(e));
    }
  }

  lemma NoGapBelow(files: seq<File>, from: seq<File>, min: UserKey, max: UserKey, lo: Option<UserKey>, hi: Option<UserKey>,
                   x: UserKey, p: File)
    requires Spans(from, min, max) && x < min <= max && (forall f :: f in files ==> FileOk(f))
    requires Within(Some(min), Some(max), lo, hi) && Settled(files, lo, hi) && Needed(files, Some(min), Some(max), lo, hi)
    requires lo.Some? && hi.Some? && p in from + Picked(files, lo, hi) && p.smallest.user <= x
    ensures Held(from + Picked(files, lo, hi), x)
  {
    var picked := Picked(files, lo, hi);
    if !Held(from + picked, x) {
      assert p in picked;
      PickedHas(files, lo, hi, p);
      var s := FirstStartAfter(files, min, x);
      forall f | f in files && Overlaps(f, Some(s), hi) ensures Inside(f, Some(s), hi) {
        EndsAreEntries(f);
        PickedHas(files, lo, hi, f);
        assert f in picked && f in from + picked && !Holds(f, x);
      }
      assert Within(Some(min), Some(max), Some(s), hi) && Settled(files, Some(s), hi);
    }
  }
}
