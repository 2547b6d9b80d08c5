/** The table-driven BCH corrector and the encoder of POCSAG (EccContainer in src/apps/pocsag_app.hpp). */
module PocsagEcc {
  import opened PocsagCode
  import opened PocsagWord

  // ----- the syndrome of a word

  /** What the first `n` positions contribute. */
  function Partial(w: Codeword, n: nat): Syndrome
    requires n <= 31
    decreases n
  {
    if n == 0 then CLEAN
    else if At(w, n - 1) then Plus(Partial(w, n - 1), Col(n - 1))
    else Partial(w, n - 1)
  }

  function SyndromeOf(w: Codeword): Syndrome { Partial(w, 31) }

  /** At how many of the first `n` positions two words differ. */
  function Differences(a: Codeword, b: Codeword, n: nat): nat
    requires n <= 32
    decreases n
  {
    if n == 0 then 0 else Differences(a, b, n - 1) + if At(a, n - 1) != At(b, n - 1) then 1 else 0
  }

  /** Bit 0, the overall parity, is not part of the BCH code. */
  function Distance(a: Codeword, b: Codeword): nat { Differences(a, b, 31) }

  /** True at position `p` or `q`. */
  predicate Hits(p: nat, q: nat, k: nat) { k == p || k == q }

  /** The one or two positions at which two words differ; 31 stands for none. */
  lemma {:induction false} ErrorPattern(a: Codeword, b: Codeword, n: nat) returns (p: nat, q: nat)
    requires n <= 31 && Differences(a, b, n) <= 2
    ensures p <= NONE && q <= NONE && (p < n || p == NONE) && (q < n || q == NONE)
    ensures p == q ==> p == NONE
    ensures p == NONE ==> q == NONE
    ensures Differences(a, b, n) == (if p == NONE then 0 else if q == NONE then 1 else 2)
    ensures forall k :: 0 <= k < n ==> (At(a, k) != At(b, k) <==> Hits(p, q, k))
    ensures Partial(a, n) == Plus(Partial(b, n), Plus(Col(p), Col(q)))
    decreases n
  {
    hide At, Plus, Col;
    NoColumn();
    if n == 0 {
      p, q := NONE, NONE;
      PlusClean(CLEAN);
    } else {
      p, q := ErrorPattern(a, b, n - 1);
      var s, c, x := Partial(b, n - 1), Col(n - 1), Plus(Col(p), Col(q));
      PlusClean(c);
      PlusClean(s);
      PlusClean(Col(p));
      if At(a, n - 1) == At(b, n - 1) {
        PlusSwaps(s, x, c);
      } else {
        PlusSwaps(s, x, c);
        PlusCancels(s, x, c);
        if p == NONE {
          p := n - 1;
        } else {
          q := n - 1;
        }
      }
    }
  }

  lemma PlusClean(a: Syndrome)
    ensures Plus(a, CLEAN) == a && Plus(CLEAN, a) == a
  {
  }

  lemma PlusSwaps(s: Syndrome, x: Syndrome, c: Syndrome)
    ensures Plus(Plus(s, x), c) == Plus(Plus(s, c), x)
    ensures Plus(Plus(s, x), c) == Plus(s, Plus(x, c))
  {
  }

  lemma PlusCancels(s: Syndrome, x: Syndrome, c: Syndrome)
    ensures Plus(Plus(s, c), Plus(x, c)) == Plus(s, x)
  {
  }

  // ----- the syndrome table

  const TABLE_SIZE: nat := 1025

  function Index(s: Syndrome): (i: nat)
    ensures i < 1024
  {
    s.v as nat
  }

  lemma IndexTells(a: Syndrome, b: Syndrome)
    requires Index(a) == Index(b)
    ensures a == b
  {
  }

  /** The position as the table stores it: only the 21 information bits are ever corrected. */
  function Shown(p: nat): (r: nat)
    ensures r < 32
  {
    if p <= 20 then p else 31
  }

  function Weight(q: nat): nat { if q == NONE then 1 else 2 }

  /** A table entry that names the positions `p` and `q`. */
  function EntryFor(p: nat, q: nat): nat { Shown(p) + 32 * Shown(q) + 0x1000 * Weight(q) }

  predicate IsPattern(p: nat, q: nat) { p <= 30 && q <= NONE && p != q }

  function PairSyndrome(p: nat, q: nat): Syndrome { Plus(Col(p), Col(q)) }

  predicate Explains(s: Syndrome, v: nat, p: nat, q: nat) {
    IsPattern(p, q) && PairSyndrome(p, q) == s && v == EntryFor(p, q)
  }

  /** Every entry names a pattern that causes its index. */
  ghost predicate Sound(t: seq<nat>) {
    |t| == TABLE_SIZE && forall s: Syndrome :: s != CLEAN && t[Index(s)] != 0 ==> exists p, q :: Explains(s, t[Index(s)], p, q)
  }

  predicate Covers(t: seq<nat>, p: nat, q: nat)
    requires |t| == TABLE_SIZE
  {
    t[Index(PairSyndrome(p, q))] != 0
  }

  predicate Grown(t: seq<nat>, u: seq<nat>) {
    |t| == |u| == TABLE_SIZE && forall k :: 0 <= k < TABLE_SIZE && t[k] != 0 ==> u[k] != 0
  }

  lemma PutKeeps(t: seq<nat>, s: Syndrome, p: nat, q: nat)
    requires Sound(t) && s == PairSyndrome(p, q) && (s == CLEAN || IsPattern(p, q))
    ensures var u := t[Index(s) := EntryFor(p, q)]; Sound(u) && Grown(t, u) && Covers(u, p, q)
  {
    hide Index, EntryFor, PairSyndrome, CLEAN;
    var u := t[Index(s) := EntryFor(p, q)];
    assert EntryFor(p, q) != 0 by {
      EntryIsNotEmpty(p, q);
    }
    forall r: Syndrome | r != CLEAN && u[Index(r)] != 0
      ensures exists p, q :: Explains(r, u[Index(r)], p, q)
    {
      if Index(r) == Index(s) {
        IndexTells(r, s);
        assert Explains(r, u[Index(r)], p, q);
      }
    }
  }

  lemma EntryIsNotEmpty(p: nat, q: nat)
    ensures EntryFor(p, q) != 0
  {
  }

  lemma GrownTransitive(t: seq<nat>, u: seq<nat>, v: seq<nat>)
    requires Grown(t, u) && Grown(u, v)
    ensures Grown(t, v)
  {
  }

  /** The columns the encoder and the corrector work with. */
  predicate GoodEcs(ecs: seq<Syndrome>) {
    |ecs| == 32 && forall n :: 0 <= n <= 20 ==> ecs[n] == Col(n)
  }

  lemma EcsIsCol(n: nat)
    requires n <= 20
    ensures Ecs(n) == Col(n)
  {
  }

  lemma UnitIsCol(n: nat)
    requires n < 10
    ensures Unit(n) == Col(30 - n)
  {
  }

  /** The generator's shift register, run twenty-one steps. */
  method FillEcs(ecs: array<Syndrome>)
    requires ecs.Length == 32
    modifies ecs
    ensures GoodEcs(ecs[..])
  {
    hide Next, Col;
    var srr := Syndrome(0x3B4);
    assert srr == Ecs(0);
    for i := 0 to 21
      invariant srr == Ecs(i)
      invariant forall n :: 0 <= n < i ==> ecs[n] == Col(n)
    {
      ecs[i] := srr;
      EcsIsCol(i);
      srr := Next(srr);
      assert Ecs(i + 1) == Next(Ecs(i));
    }
  }

  /** bch_[k] = v, where `v` is the entry for `p` and `q`. */
  method Store(bch: array<nat>, k: Syndrome, v: nat, ghost p: nat, ghost q: nat)
    requires bch.Length == TABLE_SIZE && Sound(bch[..]) && v == EntryFor(p, q)
    requires k == PairSyndrome(p, q) && p <= 30 && q <= NONE && (p == q ==> k == CLEAN)
    modifies bch
    ensures Sound(bch[..]) && Grown(old(bch[..]), bch[..]) && Covers(bch[..], p, q)
  {
    hide Covers, Grown, PairSyndrome, EntryFor, Index, Sound;
    PutKeeps(bch[..], k, p, q);
    ghost var before := bch[..];
    bch[Index(k)] := v;
    assert bch[..] == before[Index(k) := v];
  }

  predicate CoversAll(t: seq<nat>, p0: nat, p1: nat, q0: nat, q1: nat)
    requires |t| == TABLE_SIZE
  {
    forall p, q :: p0 <= p < p1 && q0 <= q < q1 && p != q ==> Covers(t, p, q)
  }

  lemma CoversMore(t: seq<nat>, u: seq<nat>, p0: nat, p1: nat, q0: nat, q1: nat)
    requires Grown(t, u) && CoversAll(t, p0, p1, q0, q1)
    ensures CoversAll(u, p0, p1, q0, q1)
  {
    hide Index, PairSyndrome;
    forall p, q | p0 <= p < p1 && q0 <= q < q1 && p != q
      ensures Covers(u, p, q)
    {
      assert Covers(t, p, q);
    }
  }

  lemma SamePosition(p: nat)
    ensures PairSyndrome(p, p) == CLEAN
  {
    hide Col, Plus;
    PlusFacts(Col(p), Col(p));
  }

  /** One row of a loop nest: all entries for `p` and a range of second positions, from the last one down
      or from the first one up. */
  lemma RowDone(t: seq<nat>, u: seq<nat>, p: nat, q: nat, q0: nat, q1: nat)
    requires Grown(t, u) && CoversAll(t, p, p + 1, q0, q1) && Covers(u, p, q)
    ensures q == q1 ==> CoversAll(u, p, p + 1, q0, q1 + 1)
    ensures q + 1 == q0 ==> CoversAll(u, p, p + 1, q, q1)
  {
    hide Covers;
    CoversMore(t, u, p, p + 1, q0, q1);
  }

  lemma BlockDone(t: seq<nat>, u: seq<nat>, p: nat, p0: nat, p1: nat, q0: nat, q1: nat)
    requires Grown(t, u) && CoversAll(t, p0, p1, q0, q1) && CoversAll(u, p, p + 1, q0, q1)
    ensures p == p1 ==> CoversAll(u, p0, p1 + 1, q0, q1)
    ensures p + 1 == p0 ==> CoversAll(u, p, p1, q0, q1)
  {
    hide Covers;
    CoversMore(t, u, p0, p1, q0, q1);
  }

  /** Two errors in the data. */
  method FillDataPairs(ecs: seq<Syndrome>, bch: array<nat>)
    requires GoodEcs(ecs) && bch.Length == TABLE_SIZE && Sound(bch[..])
    modifies bch
    ensures Sound(bch[..]) && Grown(old(bch[..]), bch[..])
    ensures CoversAll(bch[..], 0, 21, 0, 21)
  {
    hide Sound, Covers, Col, Plus, Index, Grown, CoversAll;
    EmptyBlock(bch[..], 0, 0, 0, 21);
    for n := 0 to 21
      invariant Sound(bch[..]) && Grown(old(bch[..]), bch[..])
      invariant CoversAll(bch[..], 0, n, 0, 21)
    {
      ghost var start := bch[..];
      EmptyBlock(bch[..], n, n + 1, 0, 0);
      for i := 0 to 21
        invariant Sound(bch[..]) && Grown(start, bch[..])
        invariant CoversAll(bch[..], n, n + 1, 0, i)
      {
        ghost var before := bch[..];
        if n == i {
          SamePosition(n);
        }
        Store(bch, Plus(ecs[n], ecs[i]), 32 * i + n + 0x2000, n, i);
        GrownTransitive(start, before, bch[..]);
        RowDone(before, bch[..], n, i, 0, i);
      }
      BlockDone(start, bch[..], n, 0, n, 0, 21);
      GrownTransitive(old(bch[..]), start, bch[..]);
    }
  }

  lemma EmptyBlock(t: seq<nat>, p0: nat, p1: nat, q0: nat, q1: nat)
    requires |t| == TABLE_SIZE
    ensures Grown(t, t)
    ensures p0 == p1 || q0 == q1 ==> CoversAll(t, p0, p1, q0, q1)
  {
  }

  /** One error in the data. */
  method FillDataSingles(ecs: seq<Syndrome>, bch: array<nat>)
    requires GoodEcs(ecs) && bch.Length == TABLE_SIZE && Sound(bch[..])
    modifies bch
    ensures Sound(bch[..]) && Grown(old(bch[..]), bch[..])
    ensures CoversAll(bch[..], 0, 21, NONE, NONE + 1)
  {
    hide Sound, Covers, Col, Plus, Index, Grown, CoversAll;
    EmptyBlock(bch[..], 0, 0, NONE, NONE + 1);
    for n := 0 to 21
      invariant Sound(bch[..]) && Grown(old(bch[..]), bch[..])
      invariant CoversAll(bch[..], 0, n, NONE, NONE + 1)
    {
      ghost var before := bch[..];
      AloneIsColumn(n);
      Store(bch, ecs[n], n + 32 * 0x1F + 0x1000, n, NONE);
      GrownTransitive(old(bch[..]), before, bch[..]);
      EmptyBlock(before, n, n + 1, NONE, NONE);
      RowDone(before, bch[..], n, NONE, NONE, NONE);
      BlockDone(before, bch[..], n, 0, n, NONE, NONE + 1);
    }
  }

  lemma AloneIsColumn(p: nat)
    ensures PairSyndrome(p, NONE) == Col(p)
  {
    hide Col, Plus;
    NoColumn();
    PlusClean(Col(p));
  }

  /** One error in the data and one in the check bits. */
  method FillMixedPairs(ecs: seq<Syndrome>, bch: array<nat>)
    requires GoodEcs(ecs) && bch.Length == TABLE_SIZE && Sound(bch[..])
    modifies bch
    ensures Sound(bch[..]) && Grown(old(bch[..]), bch[..])
    ensures CoversAll(bch[..], 0, 21, 21, 31)
  {
    hide Sound, Covers, Col, Plus, Index, Grown, CoversAll, Unit;
    EmptyBlock(bch[..], 0, 0, 21, 31);
    for n := 0 to 21
      invariant Sound(bch[..]) && Grown(old(bch[..]), bch[..])
      invariant CoversAll(bch[..], 0, n, 21, 31)
    {
      ghost var start := bch[..];
      EmptyBlock(bch[..], n, n + 1, 31, 31);
      for i := 0 to 10
        invariant Sound(bch[..]) && Grown(start, bch[..])
        invariant CoversAll(bch[..], n, n + 1, 31 - i, 31)
      {
        ghost var before := bch[..];
        UnitIsCol(i);
        Store(bch, Plus(ecs[n], Unit(i)), n + 32 * 0x1F + 0x2000, n, 30 - i);
        GrownTransitive(start, before, bch[..]);
        RowDone(before, bch[..], n, 30 - i, 31 - i, 31);
      }
      BlockDone(start, bch[..], n, 0, n, 21, 31);
      GrownTransitive(old(bch[..]), start, bch[..]);
    }
  }

  /** One error in the check bits. */
  method FillCheckSingles(bch: array<nat>)
    requires bch.Length == TABLE_SIZE && Sound(bch[..])
    modifies bch
    ensures Sound(bch[..]) && Grown(old(bch[..]), bch[..])
    ensures CoversAll(bch[..], 21, 31, NONE, NONE + 1)
  {
    hide Sound, Covers, Col, Plus, Index, Grown, CoversAll, Unit;
    EmptyBlock(bch[..], 31, 31, NONE, NONE + 1);
    for n := 0 to 10
      invariant Sound(bch[..]) && Grown(old(bch[..]), bch[..])
      invariant CoversAll(bch[..], 31 - n, 31, NONE, NONE + 1)
    {
      ghost var before := bch[..];
      UnitIsCol(n);
      AloneIsColumn(30 - n);
      Store(bch, Unit(n), 0x3FF + 0x1000, 30 - n, NONE);
      GrownTransitive(old(bch[..]), before, bch[..]);
      EmptyBlock(before, 30 - n, 31 - n, NONE, NONE);
      RowDone(before, bch[..], 30 - n, NONE, NONE, NONE);
      BlockDone(before, bch[..], 30 - n, 31 - n, 31, NONE, NONE + 1);
    }
  }

  /** Two errors in the check bits. */
  method FillCheckPairs(bch: array<nat>)
    requires bch.Length == TABLE_SIZE && Sound(bch[..])
    modifies bch
    ensures Sound(bch[..]) && Grown(old(bch[..]), bch[..])
    ensures CoversAll(bch[..], 21, 31, 21, 31)
  {
    hide Sound, Covers, Col, Plus, Index, Grown, CoversAll, Unit;
    EmptyBlock(bch[..], 31, 31, 21, 31);
    for n := 0 to 10
      invariant Sound(bch[..]) && Grown(old(bch[..]), bch[..])
      invariant CoversAll(bch[..], 31 - n, 31, 21, 31)
    {
      ghost var start := bch[..];
      EmptyBlock(bch[..], 30 - n, 31 - n, 31, 31);
      for i := 0 to 10
        invariant Sound(bch[..]) && Grown(start, bch[..])
        invariant CoversAll(bch[..], 30 - n, 31 - n, 31 - i, 31)
      {
        ghost var before := bch[..];
        if i != n {
          UnitIsCol(i);
          UnitIsCol(n);
          Store(bch, Plus(Unit(n), Unit(i)), 0x3FF + 0x2000, 30 - n, 30 - i);
          GrownTransitive(start, before, bch[..]);
          RowDone(before, bch[..], 30 - n, 30 - i, 31 - i, 31);
        } else {
          SkipDiagonal(bch[..], 30 - n);
        }
      }
      BlockDone(start, bch[..], 30 - n, 31 - n, 31, 21, 31);
      GrownTransitive(old(bch[..]), start, bch[..]);
    }
  }

  lemma SkipDiagonal(t: seq<nat>, p: nat)
    requires |t| == TABLE_SIZE && CoversAll(t, p, p + 1, p + 1, 31)
    ensures CoversAll(t, p, p + 1, p, 31)
  {
  }

  /** Every pattern of weight one or two has an entry. */
  ghost predicate Complete(t: seq<nat>)
    requires |t| == TABLE_SIZE
  {
    forall p, q :: IsPattern(p, q) ==> Covers(t, p, q)
  }

  lemma OrderIsFree(p: nat, q: nat)
    ensures PairSyndrome(p, q) == PairSyndrome(q, p)
  {
    hide Col, Plus;
    PlusFacts(Col(p), Col(q));
  }

  lemma BlocksComplete(t: seq<nat>)
    requires |t| == TABLE_SIZE
    requires CoversAll(t, 0, 21, 0, 21) && CoversAll(t, 0, 21, NONE, NONE + 1) && CoversAll(t, 0, 21, 21, 31)
    requires CoversAll(t, 21, 31, NONE, NONE + 1) && CoversAll(t, 21, 31, 21, 31)
    ensures Complete(t)
  {
    hide PairSyndrome, Index;
    forall p, q | IsPattern(p, q)
      ensures Covers(t, p, q)
    {
      if p >= 21 && q <= 20 {
        assert Covers(t, q, p);
        OrderIsFree(p, q);
      }
    }
  }

  // ----- what correction is to do

  /** The information bit at `p` flipped, if there is one. */
  function Repaired(w: Codeword, p: nat): Codeword
    requires p <= NONE
  {
    if p <= 20 then Flip(w, p) else w
  }

  /** The right answer for `w`: a clean word and a hopeless one stay as they are, and a word that is one or
      two flips off has the flips among its information bits undone. */
  ghost predicate IsRight(w: Codeword, errors: nat, word: Codeword) {
    && (SyndromeOf(w) == CLEAN ==> errors == 0 && word == w)
    && (forall p, q :: IsPattern(p, q) && PairSyndrome(p, q) == SyndromeOf(w) ==>
          errors == Weight(q) && word == Repaired(Repaired(w, q), p))
    && (SyndromeOf(w) != CLEAN && (forall p, q :: IsPattern(p, q) ==> PairSyndrome(p, q) != SyndromeOf(w)) ==>
          errors == 3 && word == w)
  }

  // ----- the check bits as the code collects them

  function Double(s: Syndrome): Syndrome { Syndrome(s.v << 1) }

  const ONE := Syndrome(1)

  function WithBit(s: Syndrome, bit: bool): Syndrome { if bit then Plus(Double(s), ONE) else Double(s) }

  /** The first `n` check bits, shifted in one by one. */
  function Collected(w: Codeword, n: nat): Syndrome
    requires n <= 10
    decreases n
  {
    if n == 0 then CLEAN else WithBit(Collected(w, n - 1), At(w, 20 + n))
  }

  function Up(s: Syndrome, n: nat): Syndrome
    decreases n
  {
    if n == 0 then s else Up(Double(s), n - 1)
  }

  lemma DoubleIsLinear(a: Syndrome, b: Syndrome)
    ensures Double(Plus(a, b)) == Plus(Double(a), Double(b))
  {
  }

  lemma {:induction false} UpIsLinear(a: Syndrome, b: Syndrome, n: nat)
    ensures Up(Plus(a, b), n) == Plus(Up(a, n), Up(b, n))
    decreases n
  {
    hide Plus, Double;
    if n > 0 {
      DoubleIsLinear(a, b);
      UpIsLinear(Double(a), Double(b), n - 1);
    }
  }

  lemma UnitSteps(m: nat)
    ensures Unit(0) == ONE && Unit(m + 1) == Double(Unit(m))
    ensures Double(CLEAN) == CLEAN
  {
  }

  lemma {:induction false} UpOfUnit(m: nat, n: nat)
    ensures Up(Unit(m), n) == Unit(m + n)
    decreases n
  {
    hide Double, Unit;
    if n > 0 {
      UnitSteps(m);
      UpOfUnit(m + 1, n - 1);
    }
  }

  lemma {:induction false} CollectedIsPartial(w: Codeword, n: nat)
    requires n <= 10
    ensures Partial(w, 21 + n) == Plus(Partial(w, 21), Up(Collected(w, n), 10 - n))
    decreases n
  {
    hide Double, Plus, Unit, Col, At, CLEAN, ONE;
    if n == 0 {
      UpOfNothing(10);
      PlusClean(Partial(w, 21));
    } else {
      CollectedIsPartial(w, n - 1);
      var s := Collected(w, n - 1);
      UpIsLinear(Double(s), ONE, 10 - n);
      UnitSteps(0);
      UpOfUnit(0, 10 - n);
      UnitIsCol(10 - n);
      PlusSwaps(Partial(w, 21), Up(Double(s), 10 - n), Col(20 + n));
    }
  }

  lemma {:induction false} UpOfNothing(n: nat)
    ensures Up(CLEAN, n) == CLEAN
  {
    hide Double;
    UnitSteps(0);
    if n > 0 {
      UpOfNothing(n - 1);
    }
  }

  /** The syndrome is what the information bits give, plus the check bits as collected. */
  lemma SyndromeIsSum(w: Codeword)
    ensures SyndromeOf(w) == Plus(Partial(w, 21), Collected(w, 10))
  {
    hide Plus, Partial, Collected;
    CollectedIsPartial(w, 10);
  }

  // ----- the container

  class EccContainer {
    const ecs: array<Syndrome>
    const bch: array<nat>

    ghost predicate Valid()
      reads ecs, bch
    {
      && GoodEcs(ecs[..]) && bch.Length == TABLE_SIZE
      && Sound(bch[..]) && Complete(bch[..])
    }

    constructor ()
      ensures Valid() && fresh(ecs) && fresh(bch)
    {
      ecs := new Syndrome[32](_ => CLEAN);
      bch := new nat[TABLE_SIZE](_ => 0);
      new;
      SetupEcc();
    }

    method SetupEcc()
      requires ecs.Length == 32 && bch.Length == TABLE_SIZE
      modifies ecs, bch
      ensures Valid()
    {
      hide Sound, Complete, CoversAll, GoodEcs, Grown;
      FillEcs(ecs);
      for i := 0 to 1024
        invariant forall k :: 0 <= k < i ==> bch[k] == 0
        invariant GoodEcs(ecs[..])
      {
        bch[i] := 0;
      }
      NothingIsSound(bch[..]);
      ghost var columns := ecs[..];
      FillDataPairs(ecs[..], bch);
      ghost var t1 := bch[..];
      FillDataSingles(ecs[..], bch);
      ghost var t2 := bch[..];
      FillMixedPairs(ecs[..], bch);
      ghost var t3 := bch[..];
      FillCheckSingles(bch);
      ghost var t4 := bch[..];
      FillCheckPairs(bch);
      ghost var t5 := bch[..];
      GrownTransitive(t3, t4, t5);
      GrownTransitive(t2, t3, t5);
      GrownTransitive(t1, t2, t5);
      CoversMore(t1, t5, 0, 21, 0, 21);
      CoversMore(t2, t5, 0, 21, NONE, NONE + 1);
      CoversMore(t3, t5, 0, 21, 21, 31);
      CoversMore(t4, t5, 21, 31, NONE, NONE + 1);
      BlocksComplete(t5);
    }

    /** The loop over the information bits. */
    method DataSyndrome(val: Codeword) returns (ecc: Syndrome)
      requires GoodEcs(ecs[..])
      ensures ecc == Partial(val, 21)
    {
      hide At, Plus, Col;
      ecc := CLEAN;
      for p := 0 to 21
        invariant ecc == Partial(val, p)
      {
        if At(val, p) {
          ecc := Plus(ecc, ecs[p]);
        }
      }
    }

    /** The source's closing test for a count of 4 is left out: the table holds counts of 1 and 2 only. */
    method ErrorCorrect(val: Codeword) returns (errl: nat, word: Codeword)
      requires Valid()
      ensures IsRight(val, errl, word)
    {
      hide At, Plus, Col, Double, Sound, Complete, Partial, IsRight, Index, Flip, GoodEcs;
      word := val;
      var ecc := DataSyndrome(val);
      var acc := CLEAN;
      for n := 0 to 10
        invariant acc == Collected(val, n)
      {
        acc := Double(acc);
        if At(val, 21 + n) {
          acc := Plus(acc, ONE);
        }
      }
      SyndromeIsSum(val);
      var synd := Plus(ecc, acc);
      errl := 0;
      if synd != CLEAN {
        var entry := bch[Index(synd)];
        if entry != 0 {
          ghost var p, q := EntryMeans(bch[..], synd);
          var b1, b2 := entry % 32, (entry / 32) % 32;
          EntryFields(p, q);
          if b2 != 0x1F {
            word := Flip(word, b2);
          }
          if b1 != 0x1F {
            word := Flip(word, b1);
          }
          errl := entry / 0x1000;
          OnlyPattern(val, p, q);
        } else {
          errl := 3;
          HopelessIsRight(val, bch[..]);
        }
      } else {
        CleanIsRight(val);
      }
    }

    method Encode(codeword: Codeword) returns (c: Codeword)
      requires Valid()
      ensures c == Encoded(codeword)
    {
      hide At, Plus, Col, Sound, Complete, Partial, Flip, Join, Lift, Top;
      c := Top(codeword);
      var ecc := DataSyndrome(c);
      EncodedOfTop(codeword);
      TopOfTop(codeword);
      EncodedIsClean(c);
      c := Join(c, Lift(ecc));
      var parity := false;
      for p := 0 to 31
        invariant parity == Parity(c, p)
      {
        if At(c, p) {
          parity := !parity;
        }
      }
      FlipLast(c);
      if parity {
        c := Join(c, Codeword(1));
      }
    }
  }

  lemma NothingIsSound(t: seq<nat>)
    requires |t| == TABLE_SIZE && forall k :: 0 <= k < 1024 ==> t[k] == 0
    ensures Sound(t)
  {
  }

  lemma EntryMeans(t: seq<nat>, s: Syndrome) returns (p: nat, q: nat)
    requires Sound(t) && s != CLEAN && t[Index(s)] != 0
    ensures Explains(s, t[Index(s)], p, q)
  {
    hide Index, EntryFor, PairSyndrome;
    p, q :| Explains(s, t[Index(s)], p, q);
  }

  lemma EntryFields(p: nat, q: nat)
    ensures EntryFor(p, q) % 32 == Shown(p) && (EntryFor(p, q) / 32) % 32 == Shown(q)
    ensures EntryFor(p, q) / 0x1000 == Weight(q)
  {
  }

  lemma FlipsCommute(w: Codeword, p: nat, q: nat)
    requires p <= 20 && q <= 20
    ensures Flip(Flip(w, p), q) == Flip(Flip(w, q), p)
  {
    hide Mix, MaskWord;
    MixesCommute(w, MaskWord(31 - p), MaskWord(31 - q));
  }

  lemma MixesCommute(w: Codeword, a: Codeword, b: Codeword)
    ensures Mix(Mix(w, a), b) == Mix(Mix(w, b), a)
  {
  }

  lemma PatternIsNotClean(p: nat, q: nat)
    requires IsPattern(p, q)
    ensures PairSyndrome(p, q) != CLEAN
  {
    hide Col, Plus;
    NoColumn();
    PlusClean(CLEAN);
    if PairSyndrome(p, q) == CLEAN {
      PatternsDiffer(p, q, NONE, NONE);
    }
  }

  lemma OnlyPattern(w: Codeword, p: nat, q: nat)
    requires IsPattern(p, q) && PairSyndrome(p, q) == SyndromeOf(w)
    ensures IsRight(w, Weight(q), Repaired(Repaired(w, q), p))
  {
    hide Col, Plus, Flip, Partial;
    PatternIsNotClean(p, q);
    forall r, s | IsPattern(r, s) && PairSyndrome(r, s) == SyndromeOf(w)
      ensures Weight(q) == Weight(s) && Repaired(Repaired(w, q), p) == Repaired(Repaired(w, s), r)
    {
      PatternsDiffer(p, q, r, s);
      if p != r && p <= 20 && q <= 20 {
        FlipsCommute(w, p, q);
      }
    }
  }

  lemma HopelessIsRight(w: Codeword, t: seq<nat>)
    requires |t| == TABLE_SIZE && Complete(t) && SyndromeOf(w) != CLEAN && t[Index(SyndromeOf(w))] == 0
    ensures IsRight(w, 3, w)
  {
    hide PairSyndrome, Index, Partial;
    forall p, q | IsPattern(p, q)
      ensures PairSyndrome(p, q) != SyndromeOf(w)
    {
      assert Covers(t, p, q);
    }
  }

  lemma CleanIsRight(w: Codeword)
    requires SyndromeOf(w) == CLEAN
    ensures IsRight(w, 0, w)
  {
    hide PairSyndrome, Partial;
    forall p, q | IsPattern(p, q)
      ensures PairSyndrome(p, q) != CLEAN
    {
      PatternIsNotClean(p, q);
    }
  }

  // ----- double-error correction

  /** Bounded-distance decoding: whatever word within distance two of a codeword is received (bit 0 may be
      anything), the right answer has the codeword's 21 information bits and counts the errors. */
  lemma CorrectsTwoErrors(c: Codeword, received: Codeword, errors: nat, word: Codeword)
    requires SyndromeOf(c) == CLEAN && Distance(received, c) <= 2 && IsRight(received, errors, word)
    ensures errors == Distance(received, c) && Top(word) == Top(c)
  {
    hide Col, Plus, Flip, Partial, Top, CLEAN;
    var p, q := ErrorPattern(received, c, 31);
    NoColumn();
    PlusClean(PairSyndrome(p, q));
    if p == NONE {
      PlusClean(CLEAN);
      assert word == received;
    } else {
      assert IsPattern(p, q) && PairSyndrome(p, q) == SyndromeOf(received);
    }
    RepairUndoes(received, c, p, q);
    SameBits(Repaired(Repaired(received, q), p), c);
  }

  lemma RepairUndoes(received: Codeword, c: Codeword, p: nat, q: nat)
    requires p <= NONE && q <= NONE && (p == q ==> p == NONE)
    requires forall k :: 0 <= k < 31 ==> (At(received, k) != At(c, k) <==> Hits(p, q, k))
    ensures forall k :: 0 <= k < 21 ==> At(Repaired(Repaired(received, q), p), k) == At(c, k)
    ensures p == NONE ==> Repaired(Repaired(received, q), p) == Repaired(received, q)
    ensures p == NONE && q == NONE ==> Repaired(Repaired(received, q), p) == received
  {
    hide At, Flip;
    forall k | 0 <= k < 21
      ensures At(Repaired(Repaired(received, q), p), k) == At(c, k)
    {
      RepairedAt(received, q, k);
      RepairedAt(Repaired(received, q), p, k);
      assert At(received, k) != At(c, k) <==> Hits(p, q, k);
    }
  }

  lemma RepairedAt(w: Codeword, p: nat, k: nat)
    requires p <= NONE && k < 21
    ensures At(Repaired(w, p), k) == (At(w, k) != (k == p))
  {
    hide At, Flip;
    if p <= 20 {
      FlipAt(w, p, k);
    }
  }

  /** A 3 is returned exactly for the words that no codeword is within distance two of. */
  lemma HopelessIsFar(w: Codeword, c: Codeword, errors: nat, word: Codeword)
    requires SyndromeOf(c) == CLEAN && IsRight(w, errors, word) && errors == 3
    ensures Distance(w, c) > 2
  {
    hide IsRight, Partial, Top;
    if Distance(w, c) <= 2 {
      CorrectsTwoErrors(c, w, errors, word);
    }
  }

  lemma {:induction false} FlipPartial(w: Codeword, p: nat, n: nat)
    requires p <= 30 && n <= 31
    ensures Partial(Flip(w, p), n) == if p < n then Plus(Partial(w, n), Col(p)) else Partial(w, n)
    decreases n
  {
    hide At, Flip, Plus, Col;
    if n > 0 {
      FlipPartial(w, p, n - 1);
      FlipAt(w, p, n - 1);
      PlusSwaps(Partial(w, n - 1), Col(p), Col(n - 1));
      PlusSwaps(Partial(w, n - 1), Col(p), Col(p));
      PlusFacts(Col(p), Col(p));
      PlusClean(Partial(w, n - 1));
    }
  }

  lemma {:induction false} AtMostTwo(a: Codeword, b: Codeword, p: nat, q: nat, n: nat)
    requires n <= 31 && forall k :: 0 <= k < n && At(a, k) != At(b, k) ==> Hits(p, q, k)
    ensures Differences(a, b, n) <= (if p < n then 1 else 0) + (if q < n then 1 else 0)
    decreases n
  {
    hide At;
    if n > 0 {
      AtMostTwo(a, b, p, q, n - 1);
    }
  }

  /** Any other answer comes from a codeword within distance two. */
  lemma OthersAreNear(w: Codeword, errors: nat, word: Codeword) returns (c: Codeword)
    requires IsRight(w, errors, word) && errors != 3
    ensures SyndromeOf(c) == CLEAN && Distance(w, c) <= 2
  {
    hide At, Flip, Plus, Col, Partial, PairSyndrome, CLEAN;
    if SyndromeOf(w) == CLEAN {
      c := w;
      AtMostTwo(w, c, NONE, NONE, 31);
    } else {
      var p, q :| IsPattern(p, q) && PairSyndrome(p, q) == SyndromeOf(w);
      c := Flip(w, p);
      if q <= 30 {
        c := Flip(c, q);
      }
      FlippedClean(w, p, q);
      forall k | 0 <= k < 31 && At(w, k) != At(c, k)
        ensures Hits(p, q, k)
      {
        FlipAt(w, p, k);
        if q <= 30 {
          FlipAt(Flip(w, p), q, k);
        }
      }
      AtMostTwo(w, c, p, q, 31);
    }
  }

  lemma FlippedClean(w: Codeword, p: nat, q: nat)
    requires IsPattern(p, q) && PairSyndrome(p, q) == SyndromeOf(w)
    ensures SyndromeOf(if q <= 30 then Flip(Flip(w, p), q) else Flip(w, p)) == CLEAN
  {
    hide Flip, Plus, Col, CLEAN, Partial;
    NoColumn();
    FlipPartial(w, p, 31);
    PlusClean(Col(p));
    PlusSwaps(SyndromeOf(w), Col(p), Col(q));
    PlusFacts(SyndromeOf(w), SyndromeOf(w));
    if q <= 30 {
      FlipPartial(Flip(w, p), q, 31);
    }
  }

  // ----- the encoder

  function HalfOf(s: Syndrome): Syndrome { Syndrome(s.v >> 1) }

  predicate Odd(s: Syndrome) { s.v & 1 != 0 }

  function Down(s: Syndrome, n: nat): Syndrome
    decreases n
  {
    if n == 0 then s else HalfOf(Down(s, n - 1))
  }

  function Plain(s: Syndrome): Codeword { Codeword(s.v as bv32) }

  /** ecc << 1. */
  function Lift(s: Syndrome): Codeword { Codeword((s.v as bv32) << 1) }

  function Join(a: Codeword, b: Codeword): Codeword { Codeword(a.v | b.v) }

  lemma PlainHalves(s: Syndrome)
    ensures Half(Lift(s)) == Plain(s) && Half(Plain(s)) == Plain(HalfOf(s)) && Plain(CLEAN) == ZERO
  {
  }

  lemma PlainEnds(s: Syndrome)
    ensures BitAt(Plain(s), 0) == Odd(s) && !BitAt(Lift(s), 0)
  {
    LowestMask();
    hide Mask;
  }

  lemma PlainFacts(s: Syndrome)
    ensures Half(Lift(s)) == Plain(s) && Half(Plain(s)) == Plain(HalfOf(s)) && Plain(CLEAN) == ZERO
    ensures BitAt(Plain(s), 0) == Odd(s) && !BitAt(Lift(s), 0)
  {
    hide *;
    PlainHalves(s);
    PlainEnds(s);
  }

  lemma {:induction false} PlainBit(s: Syndrome, i: nat, n: nat)
    ensures BitAt(Plain(s), i + n) == BitAt(Plain(Down(s, n)), i)
    decreases n
  {
    hide Plain, HalfOf, BitAt, Half, Odd, Lift, ZERO, CLEAN;
    if n > 0 {
      PlainBit(s, i + 1, n - 1);
      PlainFacts(Down(s, n - 1));
      HalfBit(Plain(Down(s, n - 1)), i);
    }
  }

  lemma TenHalvings(s: Syndrome)
    ensures Down(s, 10) == CLEAN
  {
    assert Down(s, 2) == Syndrome(s.v >> 2);
    assert Down(s, 4) == Syndrome(s.v >> 4);
    assert Down(s, 6) == Syndrome(s.v >> 6);
    assert Down(s, 8) == Syndrome(s.v >> 8);
  }

  /** The check bits of a word made of information bits and `s` are the bits of `s`. */
  lemma LiftBit(s: Syndrome, i: nat)
    ensures i < 10 ==> BitAt(Lift(s), i + 1) == Odd(Down(s, i))
    ensures i >= 10 ==> !BitAt(Lift(s), i + 1)
    ensures !BitAt(Lift(s), 0)
  {
    hide Plain, HalfOf, BitAt, Half, Odd, Lift, ZERO, CLEAN, Down;
    PlainFacts(s);
    HalfBit(Lift(s), i);
    if i < 10 {
      PlainBit(s, 0, i);
      PlainFacts(Down(s, i));
    } else {
      PlainBit(s, i - 10, 10);
      TenHalvings(s);
      PlainFacts(CLEAN);
      NoBits(i - 10);
    }
  }

  lemma TopMaskBit(i: nat)
    requires i < 32
    ensures BitAt(Codeword(0xFFFFF800), i) == (i >= 11)
  {
    hide Mask;
    MaskValues();
  }

  lemma TopIsMeet(w: Codeword, s: Syndrome)
    ensures Top(w) == Meet(w, Codeword(0xFFFFF800))
    ensures Join(Top(w), Lift(s)) == Mix(Top(w), Lift(s))
  {
  }

  lemma JoinedAt(w: Codeword, s: Syndrome, p: nat)
    requires p < 32
    ensures p < 21 ==> At(Join(Top(w), Lift(s)), p) == At(w, p)
    ensures 21 <= p < 31 ==> At(Join(Top(w), Lift(s)), p) == Odd(Down(s, 30 - p))
    ensures p == 31 ==> !At(Join(Top(w), Lift(s)), p)
  {
    hide Join, Top, Lift, Mix, Meet, BitAt, Odd, Down;
    var mask := Codeword(0xFFFFF800);
    TopIsMeet(w, s);
    BitOfBoth(w, mask, 31 - p);
    TopMaskBit(31 - p);
    BitOfBoth(Top(w), Lift(s), 31 - p);
    if p < 31 {
      LiftBit(s, 30 - p);
    } else {
      LiftBit(s, 0);
    }
  }

  lemma Rebuilt(s: Syndrome)
    ensures WithBit(HalfOf(s), Odd(s)) == s
  {
  }

  lemma {:induction false} CollectedBack(w: Codeword, s: Syndrome, n: nat)
    requires n <= 10
    ensures Collected(Join(Top(w), Lift(s)), n) == Down(s, 10 - n)
    decreases n
  {
    hide Join, Top, Lift, At, WithBit, Odd, HalfOf, CLEAN;
    if n == 0 {
      TenHalvings(s);
    } else {
      CollectedBack(w, s, n - 1);
      JoinedAt(w, s, 20 + n);
      Rebuilt(Down(s, 10 - n));
    }
  }

  lemma {:induction false} PartialSame(a: Codeword, b: Codeword, n: nat)
    requires n <= 31 && forall k :: 0 <= k < n ==> At(a, k) == At(b, k)
    ensures Partial(a, n) == Partial(b, n)
    decreases n
  {
    hide At, Plus, Col;
    if n > 0 {
      PartialSame(a, b, n - 1);
    }
  }

  lemma EncodedIsClean(w: Codeword)
    ensures var c := Join(Top(w), Lift(Partial(w, 21)));
            SyndromeOf(c) == CLEAN && Top(c) == Top(w) && !At(c, 31)
  {
    hide Join, Top, Lift, At, Partial, Collected, Plus, CLEAN, Down;
    var s := Partial(w, 21);
    var c := Join(Top(w), Lift(s));
    forall k | 0 <= k < 21
      ensures At(c, k) == At(w, k)
    {
      JoinedAt(w, s, k);
    }
    SameBits(c, w);
    JoinedAt(w, s, 31);
    PartialSame(c, w, 21);
    CollectedBack(w, s, 10);
    DownNone(s);
    SyndromeIsSum(c);
    PlusFacts(s, s);
  }

  lemma DownNone(s: Syndrome)
    ensures Down(s, 0) == s
  {
  }

  /** True when an odd number of the first `n` positions is set. */
  predicate Parity(w: Codeword, n: nat)
    requires n <= 32
    decreases n
  {
    n > 0 && At(w, n - 1) != Parity(w, n - 1)
  }

  lemma {:induction false} FlipParity(w: Codeword, p: nat, n: nat)
    requires p < 32 && n <= 32
    ensures Parity(Flip(w, p), n) == if p < n then !Parity(w, n) else Parity(w, n)
    decreases n
  {
    hide At, Flip;
    if n > 0 {
      FlipParity(w, p, n - 1);
      FlipAt(w, p, n - 1);
    }
  }

  lemma FlipLast(c: Codeword)
    requires !At(c, 31)
    ensures Join(c, Codeword(1)) == Flip(c, 31)
    ensures Top(Flip(c, 31)) == Top(c)
  {
    LowestMask();
    hide Mask;
  }

  /** The codeword for the information bits of `w`: the check bits that make the syndrome clean, and a last
      bit that makes the parity even. */
  function Encoded(w: Codeword): Codeword {
    var c := Join(Top(w), Lift(Partial(w, 21)));
    if Parity(c, 31) then Flip(c, 31) else c
  }

  /** An encoded word carries the information bits, and is a codeword of even parity. */
  lemma EncodedIsCodeword(w: Codeword)
    ensures Top(Encoded(w)) == Top(w) && SyndromeOf(Encoded(w)) == CLEAN && !Parity(Encoded(w), 32)
  {
    hide Join, Top, Lift, At, Partial, Flip, CLEAN;
    EncodedIsClean(w);
    var c := Join(Top(w), Lift(Partial(w, 21)));
    FlipLast(c);
    if Parity(c, 31) {
      FlipParity(c, 31, 32);
      FlipParity(c, 31, 31);
      FlipAt(c, 31, 31);
      forall k | 0 <= k < 31
        ensures At(Flip(c, 31), k) == At(c, k)
      {
        FlipAt(c, 31, k);
      }
      PartialSame(Flip(c, 31), c, 31);
    }
  }

  function CheckPart(c: Codeword): Syndrome { Syndrome(((c.v >> 1) & 0x3FF) as bv10) }

  lemma Assembled(c: Codeword)
    ensures var b := Join(Top(c), Lift(CheckPart(c))); c == b || c == Join(b, Codeword(1))
  {
  }

  /** A word is its information bits, its check bits and its last bit. */
  lemma WordParts(c: Codeword)
    ensures var b := Join(Top(c), Lift(CheckPart(c)));
            !At(b, 31) && (c == b || c == Flip(b, 31)) && Partial(b, 21) == Partial(c, 21) && SyndromeOf(b) == SyndromeOf(c)
            && SyndromeOf(b) == Plus(Partial(c, 21), CheckPart(c))
  {
    hide Join, Top, Lift, At, Partial, Flip, CheckPart, Collected, Plus, Down;
    var s := CheckPart(c);
    var b := Join(Top(c), Lift(s));
    Assembled(c);
    JoinedAt(c, s, 31);
    FlipLast(b);
    forall k | 0 <= k < 31
      ensures At(Flip(b, 31), k) == At(b, k)
    {
      FlipAt(b, 31, k);
    }
    PartialSame(Flip(b, 31), b, 31);
    PartialSame(Flip(b, 31), b, 21);
    CollectedBack(c, s, 10);
    DownNone(s);
    SyndromeIsSum(b);
  }

  /** There is no other: a clean word of even parity is what its information bits encode to. */
  lemma OnlyEncoded(c: Codeword)
    requires SyndromeOf(c) == CLEAN && !Parity(c, 32)
    ensures c == Encoded(c)
  {
    hide Join, Top, Lift, At, Partial, Flip, CLEAN, CheckPart, Plus;
    WordParts(c);
    PlusFacts(Partial(c, 21), CheckPart(c));
    var b := Join(Top(c), Lift(CheckPart(c)));
    FlipParity(b, 31, 32);
  }

  /** Encoding looks at the information bits only. */
  lemma EncodedOfTop(w: Codeword)
    ensures Encoded(Top(w)) == Encoded(w)
  {
    hide Join, Lift, At, Partial, Flip, Top;
    TopOfTop(w);
    forall k | 0 <= k < 21
      ensures At(Top(w), k) == At(w, k)
    {
      TopAt(w, k);
    }
    PartialSame(Top(w), w, 21);
  }

  lemma TopOfTop(w: Codeword)
    ensures Top(Top(w)) == Top(w)
  {
  }

  lemma TopAt(w: Codeword, p: nat)
    requires p < 21
    ensures At(Top(w), p) == At(w, p)
  {
    hide Join, Top, Meet, BitAt, Lift;
    TopIsMeet(w, CLEAN);
    BitOfBoth(w, Codeword(0xFFFFF800), 31 - p);
    TopMaskBit(31 - p);
  }
}
