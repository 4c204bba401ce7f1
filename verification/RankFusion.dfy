/** Reciprocal-rank fusion of two ranked legs, from `a3.py`, over exact reals. */
module RankFusion {
  import opened Wrappers

  datatype Entry = Entry(id: string, score: real)

  /** One leg's answer to a query, best first; the leg's own scores play no part. */
  type Leg = seq<Entry>

  function Top(leg: Leg, n: nat): Leg { if n < |leg| then leg[..n] else leg }

  /** What the ranks of `leg` contribute, in order. */
  function Contributions(leg: Leg, k: nat): seq<Entry> {
    seq(|leg|, r requires 0 <= r < |leg| => Entry(leg[r].id, 1.0 / (k + r + 1) as real))
  }

  function History(x: Leg, y: Leg, k: nat, n: nat): seq<Entry> {
    Contributions(Top(x, n), k) + Contributions(Top(y, n), k)
  }

  /** The sum of what `h` contributes to `d`. */
  function Total(h: seq<Entry>, d: string): real {
    if h == [] then 0.0
    else Total(h[..|h| - 1], d) + if h[|h| - 1].id == d then h[|h| - 1].score else 0.0
  }

  /** The first position of `d`, or `|h|`. */
  function FirstSeen(h: seq<Entry>, d: string): (i: nat)
    ensures i <= |h|
  {
    if h == [] || h[0].id == d then 0 else 1 + FirstSeen(h[1..], d)
  }

  /** Higher score first; among equals the one seen first. */
  predicate Before(h: seq<Entry>, e: Entry, f: Entry) {
    e.score > f.score || (e.score == f.score && FirstSeen(h, e.id) < FirstSeen(h, f.id))
  }

  predicate Ordered(h: seq<Entry>, out: seq<Entry>) {
    forall i, j :: 0 <= i < j < |out| ==> Before(h, out[i], out[j])
  }

  /** `e` is a contributing id with its total. */
  predicate Fused(h: seq<Entry>, e: Entry) { FirstSeen(h, e.id) < |h| && e.score == Total(h, e.id) }

  /** What the fusion of two legs must be: every contributing id with its total, ordered. */
  ghost predicate IsFusion(h: seq<Entry>, out: seq<Entry>) {
    && Ordered(h, out)
    && forall e :: e in out <==> Fused(h, e)
  }

  // ---------------------------------------------------------------- totals and positions

  lemma {:induction false} TotalAppend(a: seq<Entry>, b: seq<Entry>, d: string)
    ensures Total(a + b, d) == Total(a, d) + Total(b, d)
    decreases b
  {
    if b == [] {
      assert a + b == a;
    } else {
      var b' := b[..|b| - 1];
      assert (a + b)[..|a + b| - 1] == a + b';
      TotalAppend(a, b', d);
    }
  }

  lemma {:induction false} FirstSeenIsFirst(h: seq<Entry>, d: string)
    ensures var i := FirstSeen(h, d);
            (i < |h| ==> h[i].id == d) && forall j :: 0 <= j < i ==> h[j].id != d
    decreases h
  {
    if h != [] && h[0].id != d { FirstSeenIsFirst(h[1..], d); }
  }

  lemma FirstSeenSnoc(h: seq<Entry>, c: Entry, d: string)
    ensures FirstSeen(h + [c], d) ==
      if FirstSeen(h, d) < |h| then FirstSeen(h, d) else if c.id == d then |h| else |h| + 1
  {
    var h' := h + [c];
    FirstSeenIsFirst(h, d);
    FirstSeenIsFirst(h', d);
    var i, i' := FirstSeen(h, d), FirstSeen(h', d);
    assert i < |h| ==> h'[i].id == d;
    assert i' < |h| ==> h[i'].id == d;
    assert h'[|h|] == c;
  }

  // ------------------------------------------------------------------- the dictionary

  /** `sc` holds what `h` has added up so far, in insertion order. */
  ghost predicate Tally(h: seq<Entry>, sc: seq<Entry>) {
    && (forall i, j :: 0 <= i < j < |sc| ==> FirstSeen(h, sc[i].id) < FirstSeen(h, sc[j].id))
    && (forall e :: e in sc <==> Fused(h, e))
  }

  /** `sc[d] = sc.get(d, 0) + w` on an insertion-ordered dictionary. */
  function Add(sc: seq<Entry>, c: Entry): seq<Entry> {
    if sc == [] then [c]
    else if sc[0].id == c.id then [Entry(c.id, sc[0].score + c.score)] + sc[1..]
    else [sc[0]] + Add(sc[1..], c)
  }

  lemma {:induction false} AddKeeps(sc: seq<Entry>, c: Entry)
    requires forall i, j :: 0 <= i < j < |sc| ==> sc[i].id != sc[j].id
    ensures var out := Add(sc, c);
            && |sc| <= |out| <= |sc| + 1
            && (forall i :: 0 <= i < |sc| ==>
                  out[i] == Entry(sc[i].id, sc[i].score + if sc[i].id == c.id then c.score else 0.0))
            && (|out| > |sc| <==> forall i :: 0 <= i < |sc| ==> sc[i].id != c.id)
            && (|out| > |sc| ==> out[|sc|] == c)
    decreases sc
  {
    if sc != [] && sc[0].id != c.id { AddKeeps(sc[1..], c); }
  }

  lemma TallyDistinct(h: seq<Entry>, sc: seq<Entry>)
    requires Tally(h, sc)
    ensures forall i, j :: 0 <= i < j < |sc| ==> sc[i].id != sc[j].id
  {
  }

  lemma TotalSnoc(h: seq<Entry>, c: Entry, d: string)
    ensures Total(h + [c], d) == Total(h, d) + if c.id == d then c.score else 0.0
  {
    assert (h + [c])[..|h|] == h;
  }

  lemma {:induction false} TotalUnseen(h: seq<Entry>, d: string)
    requires forall i :: 0 <= i < |h| ==> h[i].id != d
    ensures Total(h, d) == 0.0
    decreases h
  {
    if h != [] { TotalUnseen(h[..|h| - 1], d); }
  }

  lemma SeenIsHeld(h: seq<Entry>, sc: seq<Entry>, d: string) returns (i: nat)
    requires Tally(h, sc) && FirstSeen(h, d) < |h|
    ensures i < |sc| && sc[i] == Entry(d, Total(h, d))
  {
    hide Total, FirstSeen;
    var e := Entry(d, Total(h, d));
    assert Fused(h, e);
    i :| 0 <= i < |sc| && sc[i] == e;
  }

  lemma HeldIsSeen(h: seq<Entry>, sc: seq<Entry>, i: nat)
    requires Tally(h, sc) && i < |sc|
    ensures FirstSeen(h, sc[i].id) < |h| && sc[i].score == Total(h, sc[i].id)
  {
    assert sc[i] in sc;
  }

  lemma SeenEntry(h: seq<Entry>, sc: seq<Entry>, c: Entry, e: Entry)
    requires Tally(h, sc) && FirstSeen(h, e.id) < |h|
    ensures e in Add(sc, c) <==> Fused(h + [c], e)
  {
    hide Total, FirstSeen, Add, Tally;
    var i := SeenIsHeld(h, sc, e.id);
    TallyDistinct(h, sc);
    AddKeeps(sc, c);
    TotalSnoc(h, c, e.id);
    FirstSeenSnoc(h, c, e.id);
    var out := Add(sc, c);
    assert out[i] == Entry(e.id, Total(h + [c], e.id));
    assert Fused(h + [c], e) <==> e == out[i];
    if e in out {
      var j :| 0 <= j < |out| && out[j] == e;
      assert j < |sc| ==> sc[j].id == e.id;
    }
  }

  lemma UnseenEntry(h: seq<Entry>, sc: seq<Entry>, c: Entry, e: Entry)
    requires Tally(h, sc) && FirstSeen(h, e.id) == |h|
    ensures e in Add(sc, c) <==> Fused(h + [c], e)
  {
    TallyDistinct(h, sc);
    AddKeeps(sc, c);
    TotalSnoc(h, c, e.id);
    FirstSeenSnoc(h, c, e.id);
    FirstSeenIsFirst(h, e.id);
    TotalUnseen(h, e.id);
    forall i | 0 <= i < |sc| ensures sc[i].id != e.id { HeldIsSeen(h, sc, i); }
    hide Total, FirstSeen, Add, Tally;
    var out := Add(sc, c);
    if e in out {
      var j :| 0 <= j < |out| && out[j] == e;
      assert j == |sc|;
    }
    assert c.id == e.id ==> out[|sc|] == c;
  }

  lemma AddKeepsOrder(h: seq<Entry>, sc: seq<Entry>, c: Entry, i: nat, j: nat)
    requires Tally(h, sc) && i < j < |Add(sc, c)|
    ensures FirstSeen(h + [c], Add(sc, c)[i].id) < FirstSeen(h + [c], Add(sc, c)[j].id)
  {
    hide Total, FirstSeen, Add;
    TallyDistinct(h, sc);
    AddKeeps(sc, c);
    HeldIsSeen(h, sc, i);
    FirstSeenSnoc(h, c, sc[i].id);
    FirstSeenSnoc(h, c, Add(sc, c)[j].id);
    if j < |sc| {
      HeldIsSeen(h, sc, j);
    } else if FirstSeen(h, c.id) < |h| {
      var held := SeenIsHeld(h, sc, c.id);
    }
  }

  lemma AddTallies(h: seq<Entry>, sc: seq<Entry>, c: Entry)
    requires Tally(h, sc)
    ensures Tally(h + [c], Add(sc, c))
  {
    hide Total, FirstSeen, Add;
    var out := Add(sc, c);
    forall e ensures e in out <==> Fused(h + [c], e) {
      if FirstSeen(h, e.id) < |h| { SeenEntry(h, sc, c, e); } else { UnseenEntry(h, sc, c, e); }
    }
    forall i, j | 0 <= i < j < |out| ensures FirstSeen(h + [c], out[i].id) < FirstSeen(h + [c], out[j].id) {
      AddKeepsOrder(h, sc, c, i, j);
    }
  }

  // ----------------------------------------------------------------------- the sorting

  /** `sorted` is stable: an equal key goes after those already placed. */
  function Insert(sorted: seq<Entry>, e: Entry): seq<Entry> {
    if sorted == [] then [e]
    else if sorted[0].score >= e.score then [sorted[0]] + Insert(sorted[1..], e)
    else [e] + sorted
  }

  function SortByScore(items: seq<Entry>): seq<Entry> {
    if items == [] then [] else Insert(SortByScore(items[..|items| - 1]), items[|items| - 1])
  }

  lemma {:induction false} InsertHolds(sorted: seq<Entry>, e: Entry, f: Entry)
    ensures f in Insert(sorted, e) <==> f == e || f in sorted
    decreases sorted
  {
    if sorted != [] && sorted[0].score >= e.score { InsertHolds(sorted[1..], e, f); }
  }

  lemma {:induction false} InsertOrders(h: seq<Entry>, sorted: seq<Entry>, e: Entry)
    requires Ordered(h, sorted)
    requires forall f :: f in sorted ==> FirstSeen(h, f.id) < FirstSeen(h, e.id)
    ensures Ordered(h, Insert(sorted, e))
    decreases sorted
  {
    if sorted == [] { return; }
    var rest := sorted[1..];
    forall f | f in rest ensures Before(h, sorted[0], f) {
      var j :| 0 <= j < |rest| && rest[j] == f;
      assert f == sorted[j + 1];
    }
    assert Ordered(h, rest);
    assert sorted[0] in sorted;
    if sorted[0].score >= e.score {
      InsertOrders(h, rest, e);
      var out := Insert(rest, e);
      forall j | 0 <= j < |out| ensures Before(h, sorted[0], out[j]) {
        InsertHolds(rest, e, out[j]);
      }
    } else {
      assert forall j :: 0 <= j < |sorted| ==> j == 0 || sorted[j] == rest[j - 1];
    }
  }

  lemma {:induction false} SortHolds(items: seq<Entry>, f: Entry)
    ensures f in SortByScore(items) <==> f in items
    decreases items
  {
    if items != [] {
      var init := items[..|items| - 1];
      SortHolds(init, f);
      InsertHolds(SortByScore(init), items[|items| - 1], f);
      assert items == init + [items[|items| - 1]];
    }
  }

  lemma {:induction false} SortOrders(h: seq<Entry>, items: seq<Entry>)
    requires forall i, j :: 0 <= i < j < |items| ==> FirstSeen(h, items[i].id) < FirstSeen(h, items[j].id)
    ensures Ordered(h, SortByScore(items))
    decreases items
  {
    if items != [] {
      var init, last := items[..|items| - 1], items[|items| - 1];
      SortOrders(h, init);
      forall f | f in SortByScore(init) ensures FirstSeen(h, f.id) < FirstSeen(h, last.id) {
        SortHolds(init, f);
        var i :| 0 <= i < |init| && init[i] == f;
        assert items[i] == f;
      }
      InsertOrders(h, SortByScore(init), last);
    }
  }

  lemma SortedTallyIsFusion(h: seq<Entry>, sc: seq<Entry>)
    requires Tally(h, sc)
    ensures IsFusion(h, SortByScore(sc))
  {
    SortOrders(h, sc);
    forall e ensures e in SortByScore(sc) <==> Fused(h, e) { SortHolds(sc, e); }
  }

  // ------------------------------------------------------------------------ the method

  /** Queries are paired up to the shorter run; each pair of legs is fused. */
  method Rrf(a: seq<Leg>, b: seq<Leg>, k: nat, n: nat) returns (out: seq<seq<Entry>>)
    ensures |out| == if |a| < |b| then |a| else |b|
    ensures forall q :: 0 <= q < |out| ==> IsFusion(History(a[q], b[q], k, n), out[q])
  {
    out := [];
    var queries := if |a| < |b| then |a| else |b|;
    for q := 0 to queries
      invariant |out| == q
      invariant forall p :: 0 <= p < q ==> IsFusion(History(a[p], b[p], k, n), out[p])
    {
      var sc := AddLeg([], [], Top(a[q], n), k);
      sc := AddLeg([] + Contributions(Top(a[q], n), k), sc, Top(b[q], n), k);
      ghost var h := [] + Contributions(Top(a[q], n), k) + Contributions(Top(b[q], n), k);
      assert h == History(a[q], b[q], k, n);
      SortedTallyIsFusion(h, sc);
      out := out + [SortByScore(sc)];
    }
  }

  /** The inner loop over one leg. */
  method AddLeg(ghost h: seq<Entry>, sc: seq<Entry>, leg: Leg, k: nat) returns (out: seq<Entry>)
    requires Tally(h, sc)
    ensures Tally(h + Contributions(leg, k), out)
  {
    out := sc;
    ghost var all := Contributions(leg, k);
    assert forall r :: 0 <= r < |leg| ==> all[r] == Entry(leg[r].id, 1.0 / (k + r + 1) as real);
    assert h + all[..0] == h;
    hide Tally, Add, Contributions;
    for r := 0 to |leg|
      invariant Tally(h + all[..r], out)
    {
      AddTallies(h + all[..r], out, all[r]);
      assert h + all[..r] + [all[r]] == h + all[..r + 1];
      out := Add(out, Entry(leg[r].id, 1.0 / (k + r + 1) as real));
    }
    assert all[..|leg|] == all;
  }

  // ---------------------------------------------------------------- what a fusion means

  lemma OrderedTail(h: seq<Entry>, out: seq<Entry>)
    requires IsFusionOf(h, out, out) && out != []
    ensures Ordered(h, out[1..]) && out[0] !in out[1..]
  {
    assert forall i :: 0 <= i < |out[1..]| ==> out[1..][i] == out[i + 1] && Before(h, out[0], out[i + 1]);
  }

  ghost predicate IsFusionOf(h: seq<Entry>, out: seq<Entry>, out': seq<Entry>) {
    Ordered(h, out) && Ordered(h, out') && forall e :: e in out <==> e in out'
  }

  lemma HeadIsFirst(h: seq<Entry>, out: seq<Entry>, e: Entry)
    requires Ordered(h, out) && e in out
    ensures e == out[0] || Before(h, out[0], e)
  {
    var i :| 0 <= i < |out| && out[i] == e;
    assert i == 0 || Before(h, out[0], out[i]);
  }

  lemma HasMember(s: seq<Entry>)
    requires s != []
    ensures exists e :: e in s
  {
    assert s[0] in s;
  }

  lemma {:induction false} OrderIsUnique(h: seq<Entry>, out: seq<Entry>, out': seq<Entry>)
    requires IsFusionOf(h, out, out')
    ensures out == out'
    decreases out
  {
    if out == [] {
      if out' != [] { HasMember(out'); }
      return;
    }
    assert out[0] in out && out[0] in out';
    HeadIsFirst(h, out', out[0]);
    assert out'[0] in out' && out'[0] in out;
    HeadIsFirst(h, out, out'[0]);
    assert out[0] == out'[0];
    OrderedTail(h, out);
    OrderedTail(h, out');
    forall e ensures e in out[1..] <==> e in out'[1..] {
      assert e in out <==> e == out[0] || e in out[1..];
      assert e in out' <==> e == out'[0] || e in out'[1..];
    }
    OrderIsUnique(h, out[1..], out'[1..]);
  }

  /** The fusion is determined, order of ties included. */
  lemma FusionIsUnique(h: seq<Entry>, out: seq<Entry>, out': seq<Entry>)
    requires IsFusion(h, out) && IsFusion(h, out')
    ensures out == out'
  {
    OrderIsUnique(h, out, out');
  }

  lemma SeenIffContributed(h: seq<Entry>, d: string)
    ensures FirstSeen(h, d) < |h| <==> exists i :: 0 <= i < |h| && h[i].id == d
  {
    FirstSeenIsFirst(h, d);
  }

  predicate Lists(leg: Leg, d: string) { exists i :: 0 <= i < |leg| && leg[i].id == d }

  lemma HistoryLists(x: Leg, y: Leg, k: nat, n: nat, d: string)
    ensures var h := History(x, y, k, n); FirstSeen(h, d) < |h| <==> Lists(Top(x, n), d) || Lists(Top(y, n), d)
  {
    var a, b := Contributions(Top(x, n), k), Contributions(Top(y, n), k);
    var h := a + b;
    SeenIffContributed(h, d);
    if Lists(Top(x, n), d) {
      var i :| 0 <= i < |Top(x, n)| && Top(x, n)[i].id == d;
      assert h[i].id == d;
    }
    if Lists(Top(y, n), d) {
      var i :| 0 <= i < |Top(y, n)| && Top(y, n)[i].id == d;
      assert h[|a| + i].id == d;
    }
    if FirstSeen(h, d) < |h| {
      var i :| 0 <= i < |h| && h[i].id == d;
      if i < |a| { assert Top(x, n)[i].id == d; } else { assert Top(y, n)[i - |a|].id == d; }
    }
  }

  /** `d` is at rank `i`, among the first `n` of the leg. */
  predicate ListedAt(leg: Leg, n: nat, d: string, i: nat) { i < |leg| && i < n && leg[i].id == d }

  ghost predicate ListedIn(leg: Leg, n: nat, d: string) { exists i: nat :: ListedAt(leg, n, d, i) }

  lemma TopLists(leg: Leg, n: nat, d: string)
    ensures Lists(Top(leg, n), d) <==> ListedIn(leg, n, d)
  {
    if ListedIn(leg, n, d) {
      var i: nat :| ListedAt(leg, n, d, i);
      assert Top(leg, n)[i].id == d;
    }
    if Lists(Top(leg, n), d) {
      var i :| 0 <= i < |Top(leg, n)| && Top(leg, n)[i].id == d;
      assert ListedAt(leg, n, d, i);
    }
  }

  /** The output lists each id of the first `n` of the two legs once, scores descending. */
  lemma FusionListsBothLegs(x: Leg, y: Leg, k: nat, n: nat, out: seq<Entry>)
    requires IsFusion(History(x, y, k, n), out)
    ensures forall d :: Lists(out, d) <==> ListedIn(x, n, d) || ListedIn(y, n, d)
    ensures forall i, j :: 0 <= i < j < |out| ==> out[i].score >= out[j].score && out[i].id != out[j].id
  {
    var h := History(x, y, k, n);
    forall d ensures Lists(out, d) <==> ListedIn(x, n, d) || ListedIn(y, n, d) {
      HistoryLists(x, y, k, n, d);
      TopLists(x, n, d);
      TopLists(y, n, d);
      if FirstSeen(h, d) < |h| {
        assert Fused(h, Entry(d, Total(h, d)));
        var i :| 0 <= i < |out| && out[i] == Entry(d, Total(h, d));
        assert out[i].id == d;
      }
      if Lists(out, d) {
        var i :| 0 <= i < |out| && out[i].id == d;
        assert out[i] in out;
      }
    }
    forall i, j | 0 <= i < j < |out| ensures out[i].score >= out[j].score && out[i].id != out[j].id {
      assert out[i] in out && out[j] in out && Before(h, out[i], out[j]);
    }
  }

  /** The one rank of `d` in the leg's first `n`, if it is there. */
  ghost predicate RanksAt(leg: Leg, n: nat, d: string, rank: Option<nat>) {
    forall i: nat :: ListedAt(leg, n, d, i) <==> rank == Some(i)
  }

  /** What that rank is worth. */
  function RankWorth(k: nat, rank: Option<nat>): real {
    if rank.None? then 0.0 else 1.0 / (k + rank.value + 1) as real
  }

  lemma {:induction false} LegWorth(leg: Leg, k: nat, d: string, rank: Option<nat>)
    requires RanksAt(leg, |leg|, d, rank)
    ensures Total(Contributions(leg, k), d) == RankWorth(k, rank)
    decreases leg
  {
    if rank.Some? { assert ListedAt(leg, |leg|, d, rank.value); }
    if leg == [] { return; }
    var init, last := leg[..|leg| - 1], |leg| - 1;
    LastContribution(leg, k, d);
    var before := if rank == Some(last) then None else rank;
    forall i: nat ensures ListedAt(init, |init|, d, i) <==> before == Some(i) {
      assert ListedAt(leg, |leg|, d, i) <==> rank == Some(i);
    }
    LegWorth(init, k, d, before);
    assert ListedAt(leg, |leg|, d, last) <==> rank == Some(last);
  }

  lemma TopRanks(leg: Leg, n: nat, d: string, rank: Option<nat>)
    requires RanksAt(leg, n, d, rank)
    ensures RanksAt(Top(leg, n), |Top(leg, n)|, d, rank)
  {
    forall i: nat ensures ListedAt(Top(leg, n), |Top(leg, n)|, d, i) <==> rank == Some(i) {
      assert ListedAt(leg, n, d, i) <==> ListedAt(Top(leg, n), |Top(leg, n)|, d, i);
    }
  }

  /** An id no leg repeats scores 1/(k + r + 1) for its rank r, counted from 0, in each leg
      that has it among the first `n`. */
  lemma ScoreByRank(x: Leg, y: Leg, k: nat, n: nat, out: seq<Entry>, e: Entry, p: Option<nat>, q: Option<nat>)
    requires IsFusion(History(x, y, k, n), out) && e in out
    requires RanksAt(x, n, e.id, p) && RanksAt(y, n, e.id, q)
    ensures e.score == RankWorth(k, p) + RankWorth(k, q)
  {
    hide Total, FirstSeen, Contributions, RankWorth, ListedAt;
    var a, b := Top(x, n), Top(y, n);
    assert Fused(History(x, y, k, n), e);
    TopRanks(x, n, e.id, p);
    TopRanks(y, n, e.id, q);
    hide RanksAt, Top;
    TotalAppend(Contributions(a, k), Contributions(b, k), e.id);
    LegWorth(a, k, e.id, p);
    LegWorth(b, k, e.id, q);
  }

  /** Reading the first `n` of one leg, then of the other, `d` comes up before `e`. */
  ghost predicate ComesUpFirst(x: Leg, y: Leg, n: nat, d: string, e: string) {
    || ListedBefore(x, n, d, e)
    || (!ListedIn(x, n, d) && !ListedIn(x, n, e) && ListedBefore(y, n, d, e))
  }

  ghost predicate ListedBefore(leg: Leg, n: nat, d: string, e: string) {
    exists i: nat :: ListedAt(leg, n, d, i) && forall j: nat :: ListedAt(leg, n, e, j) ==> i < j
  }

  lemma HistoryListsAt(x: Leg, y: Leg, k: nat, n: nat, d: string, r: nat)
    ensures var h, a := History(x, y, k, n), |Top(x, n)|;
            && (ListedAt(x, n, d, r) <==> r < a && r < |h| && h[r].id == d)
            && (ListedAt(y, n, d, r) <==> a + r < |h| && h[a + r].id == d)
  {
  }

  lemma FirstComesUp(x: Leg, y: Leg, k: nat, n: nat, d: string, e: string)
    requires FirstSeen(History(x, y, k, n), d) < FirstSeen(History(x, y, k, n), e)
    ensures ComesUpFirst(x, y, n, d, e)
  {
    var h, a := History(x, y, k, n), |Top(x, n)|;
    FirstSeenIsFirst(h, d);
    FirstSeenIsFirst(h, e);
    var first, second := FirstSeen(h, d), FirstSeen(h, e);
    hide FirstSeen, Top, History, ListedAt;
    forall r: nat, f | (f == d || f == e) && ListedAt(x, n, f, r) ensures first <= r && (f == e ==> first < r) && r < a {
      HistoryListsAt(x, y, k, n, f, r);
    }
    if first < a {
      HistoryListsAt(x, y, k, n, d, first);
    } else {
      HistoryListsAt(x, y, k, n, d, first - a);
      forall r: nat | ListedAt(y, n, e, r) ensures first - a < r { HistoryListsAt(x, y, k, n, e, r); }
      assert ListedBefore(y, n, d, e);
    }
  }

  /** Equal scores stay in the order in which their ids first came up. */
  lemma TiesKeepTheirOrder(x: Leg, y: Leg, k: nat, n: nat, out: seq<Entry>, i: nat, j: nat)
    requires IsFusion(History(x, y, k, n), out) && i < j < |out| && out[i].score == out[j].score
    ensures ComesUpFirst(x, y, n, out[i].id, out[j].id)
  {
    hide FirstSeen, Fused, ComesUpFirst, History;
    assert Before(History(x, y, k, n), out[i], out[j]);
    FirstComesUp(x, y, k, n, out[i].id, out[j].id);
  }

  /** Swapping the legs keeps every id and its score; only ties may reorder. */
  lemma SwapKeepsScores(x: Leg, y: Leg, k: nat, n: nat, out: seq<Entry>, swapped: seq<Entry>)
    requires IsFusion(History(x, y, k, n), out) && IsFusion(History(y, x, k, n), swapped)
    ensures forall e :: e in out <==> e in swapped
  {
    forall e ensures e in out <==> e in swapped {
      HistoryLists(x, y, k, n, e.id);
      HistoryLists(y, x, k, n, e.id);
      TotalAppend(Contributions(Top(x, n), k), Contributions(Top(y, n), k), e.id);
      TotalAppend(Contributions(Top(y, n), k), Contributions(Top(x, n), k), e.id);
    }
  }

  // -------------------------------------------------------------------------- agreement

  function Count(leg: Leg, d: string): nat {
    if leg == [] then 0 else Count(leg[..|leg| - 1], d) + if leg[|leg| - 1].id == d then 1 else 0
  }

  /** However far the leg is read, `d` was listed at least as often as `e`: each occurrence
      of `e` has one of `d` of the same number before it. */
  predicate Dominates(leg: Leg, d: string, e: string) {
    forall m :: 0 <= m <= |leg| ==> Count(leg[..m], e) <= Count(leg[..m], d)
  }

  function Weight(k: nat, rank: nat): real { 1.0 / (k + rank + 1) as real }

  lemma ReciprocalFalls(p: real, q: real)
    requires 0.0 < p < q
    ensures 1.0 / p > 1.0 / q > 0.0
  {
    var r := 1.0 / p - 1.0 / q;
    assert r * p * q == q - p;
    if r <= 0.0 { NonPositiveTimes(r, p * q); }
  }

  lemma NonPositiveTimes(r: real, s: real)
    requires r <= 0.0 && s > 0.0
    ensures r * s <= 0.0
  {
  }

  lemma WeightFalls(k: nat, rank: nat)
    ensures Weight(k, rank) > Weight(k, rank + 1) > 0.0
  {
    ReciprocalFalls((k + rank + 1) as real, (k + rank + 2) as real);
  }

  lemma {:induction false} CountIffListed(leg: Leg, d: string)
    ensures Count(leg, d) > 0 <==> Lists(leg, d)
    decreases leg
  {
    if leg == [] { return; }
    var init, last := leg[..|leg| - 1], leg[|leg| - 1];
    CountIffListed(init, d);
    if Lists(init, d) {
      var i :| 0 <= i < |init| && init[i].id == d;
      assert leg[i].id == d;
    }
    if Lists(leg, d) && last.id != d {
      var i :| 0 <= i < |leg| && leg[i].id == d;
      assert init[i].id == d;
    }
  }

  lemma DominatesPrefix(leg: Leg, d: string, e: string)
    requires Dominates(leg, d, e) && leg != []
    ensures Dominates(leg[..|leg| - 1], d, e) && Count(leg, e) <= Count(leg, d)
  {
    var init := leg[..|leg| - 1];
    forall m | 0 <= m <= |init| ensures Count(init[..m], e) <= Count(init[..m], d) { assert init[..m] == leg[..m]; }
    assert leg[..|leg|] == leg;
  }

  lemma LastContribution(leg: Leg, k: nat, d: string)
    requires leg != []
    ensures Total(Contributions(leg, k), d) ==
      Total(Contributions(leg[..|leg| - 1], k), d) + if leg[|leg| - 1].id == d then Weight(k, |leg| - 1) else 0.0
  {
    var c := Contributions(leg, k);
    assert c[..|c| - 1] == Contributions(leg[..|leg| - 1], k);
  }

  /** What `n` unmatched occurrences are worth at the next rank. */
  function Worth(n: int, w: real): real { n as real * w }

  lemma WorthFacts(n: int, w: real, w': real)
    requires n >= 0 && w > w' > 0.0
    ensures Worth(n, w) >= Worth(n, w') >= 0.0
    ensures n > 0 ==> Worth(n, w) > Worth(n, w')
    ensures Worth(n + 1, w) == Worth(n, w) + w
  {
    assert Worth(n, w) - Worth(n, w') == n as real * (w - w');
    if n > 0 { PositiveTimes(n as real, w - w'); }
  }

  lemma PositiveTimes(x: real, y: real)
    requires x > 0.0 && y > 0.0
    ensures x * y > 0.0
  {
  }

  lemma RankStep(more: real, ahead: int, gain: int, w: real, w': real)
    requires -1 <= gain <= 1 && ahead >= 0 && ahead + gain >= 0
    requires w > w' > 0.0 && more >= Worth(ahead, w)
    ensures more + gain as real * w >= Worth(ahead + gain, w')
    ensures more > Worth(ahead, w) || gain == 1 ==> more + gain as real * w > Worth(ahead + gain, w')
  {
    WorthFacts(ahead, w, w');
    WorthFacts(ahead + gain, w, w');
    hide Worth;
  }

  /** Each occurrence of `d` not yet matched is worth at least the next weight, and a matched
      one more than its match. */
  lemma {:induction false} DominanceScores(leg: Leg, k: nat, d: string, e: string)
    requires d != e && Dominates(leg, d, e)
    ensures var more := Total(Contributions(leg, k), d) - Total(Contributions(leg, k), e);
            var ahead := Count(leg, d) - Count(leg, e);
            && ahead >= 0 && more >= Worth(ahead, Weight(k, |leg|))
            && (Count(leg, d) > 0 ==> more > Worth(ahead, Weight(k, |leg|)))
    decreases leg
  {
    if leg == [] { return; }
    hide Total, Count, Contributions, Weight, Dominates, Worth;
    var init, last, r := leg[..|leg| - 1], leg[|leg| - 1], |leg| - 1;
    var gain := if last.id == d then 1 else if last.id == e then -1 else 0;
    DominatesPrefix(leg, d, e);
    DominanceScores(init, k, d, e);
    LastContribution(leg, k, d);
    LastContribution(leg, k, e);
    LastCount(leg, d);
    LastCount(leg, e);
    WeightFalls(k, r);
    RankStep(Total(Contributions(init, k), d) - Total(Contributions(init, k), e), Count(init, d) - Count(init, e),
             gain, Weight(k, r), Weight(k, r + 1));
  }

  lemma LastCount(leg: Leg, d: string)
    requires leg != []
    ensures Count(leg, d) == Count(leg[..|leg| - 1], d) + if leg[|leg| - 1].id == d then 1 else 0
  {
  }

  lemma LegAgrees(leg: Leg, k: nat, d: string, e: string)
    requires d != e && Dominates(leg, d, e)
    ensures Total(Contributions(leg, k), d) >= Total(Contributions(leg, k), e)
    ensures Lists(leg, e) ==> Lists(leg, d) && Total(Contributions(leg, k), d) > Total(Contributions(leg, k), e)
  {
    DominanceScores(leg, k, d, e);
    CountIffListed(leg, d);
    CountIffListed(leg, e);
    assert leg[..|leg|] == leg;
    WeightFalls(k, |leg|);
    hide Total, Count, Contributions, Weight;
    WorthFacts(Count(leg, d) - Count(leg, e), Weight(k, |leg|), Weight(k, |leg| + 1));
  }

  lemma ScoresDescend(h: seq<Entry>, out: seq<Entry>, i: nat, j: nat)
    requires Ordered(h, out) && i <= j < |out|
    ensures out[i].score >= out[j].score
  {
    assert i < j ==> Before(h, out[i], out[j]);
  }

  /** An id that dominates another in both top-n lists comes before it in the fusion,
      repetitions included. */
  lemma DominanceIsKept(x: Leg, y: Leg, k: nat, n: nat, out: seq<Entry>, d: string, e: string)
    requires IsFusion(History(x, y, k, n), out)
    requires d != e && Dominates(Top(x, n), d, e) && Dominates(Top(y, n), d, e)
    requires Lists(Top(x, n), e) || Lists(Top(y, n), e)
    ensures exists i, j :: 0 <= i < j < |out| && out[i].id == d && out[j].id == e
  {
    hide FirstSeen, Total, Count;
    var h, x', y' := History(x, y, k, n), Top(x, n), Top(y, n);
    LegAgrees(x', k, d, e);
    LegAgrees(y', k, d, e);
    TotalAppend(Contributions(x', k), Contributions(y', k), d);
    TotalAppend(Contributions(x', k), Contributions(y', k), e);
    HistoryLists(x, y, k, n, d);
    HistoryLists(x, y, k, n, e);
    hide Top, History, Ordered, Dominates, Lists;
    var first, second := Entry(d, Total(h, d)), Entry(e, Total(h, e));
    assert Fused(h, first) && Fused(h, second);
    var i :| 0 <= i < |out| && out[i] == first;
    var j :| 0 <= j < |out| && out[j] == second;
    if j <= i { ScoresDescend(h, out, j, i); }
  }

  /** The leg lists `e` at most once. */
  predicate Once(leg: Leg, e: string) { Count(leg, e) <= 1 }

  /** If the leg lists `e`, it lists `d` before it. */
  predicate Prefers(leg: Leg, d: string, e: string) {
    FirstSeen(leg, e) < |leg| ==> FirstSeen(leg, d) < FirstSeen(leg, e)
  }

  lemma {:induction false} CountGrows(leg: Leg, m: nat, d: string)
    requires m <= |leg|
    ensures Count(leg[..m], d) <= Count(leg, d)
    decreases leg
  {
    if m == |leg| {
      assert leg[..m] == leg;
    } else {
      assert leg[..m] == leg[..|leg| - 1][..m];
      CountGrows(leg[..|leg| - 1], m, d);
    }
  }

  lemma PreferredDominates(leg: Leg, d: string, e: string)
    requires Once(leg, e) && Prefers(leg, d, e)
    ensures Dominates(leg, d, e)
  {
    FirstSeenIsFirst(leg, d);
    FirstSeenIsFirst(leg, e);
    hide FirstSeen;
    forall m | 0 <= m <= |leg| ensures Count(leg[..m], e) <= Count(leg[..m], d) {
      CountGrows(leg, m, e);
      CountIffListed(leg[..m], d);
      CountIffListed(leg[..m], e);
      if Count(leg[..m], e) > 0 {
        var j :| 0 <= j < m && leg[..m][j].id == e;
        assert leg[j].id == e;
        assert leg[..m][FirstSeen(leg, d)].id == d;
      }
    }
  }

  lemma PrefersAnother(leg: Leg, d: string, e: string)
    requires Prefers(leg, d, e) && Lists(leg, e)
    ensures d != e
  {
    SeenIffContributed(leg, e);
  }

  /** So does an id that every leg listing the other, once, lists before it. */
  lemma AgreementIsKept(x: Leg, y: Leg, k: nat, n: nat, out: seq<Entry>, d: string, e: string)
    requires IsFusion(History(x, y, k, n), out)
    requires Once(Top(x, n), e) && Once(Top(y, n), e)
    requires Prefers(Top(x, n), d, e) && Prefers(Top(y, n), d, e)
    requires Lists(Top(x, n), e) || Lists(Top(y, n), e)
    ensures exists i, j :: 0 <= i < j < |out| && out[i].id == d && out[j].id == e
  {
    PreferredDominates(Top(x, n), d, e);
    PreferredDominates(Top(y, n), d, e);
    if Lists(Top(x, n), e) { PrefersAnother(Top(x, n), d, e); } else { PrefersAnother(Top(y, n), d, e); }
    DominanceIsKept(x, y, k, n, out, d, e);
  }

  function Repeated(d: string, e: string): seq<Entry> {
    [Entry(d, 1.0 / 61.0), Entry(e, 1.0 / 62.0), Entry(e, 1.0 / 63.0)]
  }

  lemma RepeatedHistory(d: string, e: string)
    ensures History([Entry(d, 0.9), Entry(e, 0.8), Entry(e, 0.7)], [], 60, 50) == Repeated(d, e)
  {
  }

  lemma RepeatedTotals(d: string, e: string, f: string)
    requires d != e
    ensures FirstSeen(Repeated(d, e), f) == if f == d then 0 else if f == e then 1 else 3
    ensures Total(Repeated(d, e), f) == if f == d then 1.0 / 61.0 else if f == e then 1.0 / 62.0 + 1.0 / 63.0 else 0.0
  {
    var c0, c1, c2 := Entry(d, 1.0 / 61.0), Entry(e, 1.0 / 62.0), Entry(e, 1.0 / 63.0);
    assert Repeated(d, e) == [] + [c0] + [c1] + [c2];
    FirstSeenIsFirst(Repeated(d, e), f);
    TotalSnoc([], c0, f);
    TotalSnoc([] + [c0], c1, f);
    TotalSnoc([] + [c0] + [c1], c2, f);
  }

  /** It need not when a leg repeats an id: here `e` is listed twice below `d`. */
  lemma RepetitionOvertakes(d: string, e: string, out: seq<Entry>)
    requires d != e
    requires IsFusion(History([Entry(d, 0.9), Entry(e, 0.8), Entry(e, 0.7)], [], 60, 50), out)
    ensures |out| == 2 && out[0].id == e && out[1].id == d
  {
    hide FirstSeen, Total, History;
    RepeatedHistory(d, e);
    var h := Repeated(d, e);
    forall f: string
      ensures FirstSeen(h, f) == if f == d then 0 else if f == e then 1 else 3
      ensures Total(h, f) == if f == d then 1.0 / 61.0 else if f == e then 1.0 / 62.0 + 1.0 / 63.0 else 0.0
    {
      RepeatedTotals(d, e, f);
    }
    var expected := [Entry(e, 1.0 / 62.0 + 1.0 / 63.0), Entry(d, 1.0 / 61.0)];
    forall f ensures f in expected <==> Fused(h, f) { }
    assert Ordered(h, expected);
    FusionIsUnique(h, out, expected);
  }
}
