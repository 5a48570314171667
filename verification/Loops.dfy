/** The find-and-replace loops of `add_cwio` in `src/cwio/cwio.cxx`, seen as string
    rewriting: a tilde in front of one of the loop's own letters is replaced by the value
    until there is none.  Which values let the loop end, and after how many replacements. */
module Loops {
  import opened Common

  /** All that a loop can tell apart. */
  datatype Mark = Tilde | Own | Other

  predicate HitAt(m: seq<Mark>, p: nat) { p + 1 < |m| && m[p] == Tilde && m[p + 1] == Own }

  function Swapped(m: seq<Mark>, p: nat, v: seq<Mark>): seq<Mark>
    requires p + 2 <= |m|
  {
    m[..p] + v + m[p + 2..]
  }

  /** The value holds no tilde in front of an own letter. */
  predicate Inert(v: seq<Mark>) { forall p :: 0 <= p < |v| ==> !HitAt(v, p) }

  predicate BeginsDouble(v: seq<Mark>) { |v| >= 2 && v[0] == Own && v[1] == Own }

  predicate EndsDouble(v: seq<Mark>) { |v| >= 2 && v[|v| - 2] == Tilde && v[|v| - 1] == Tilde }

  /** The values that let the loop end. */
  predicate Tame(v: seq<Mark>) { Inert(v) && !(BeginsDouble(v) && EndsDouble(v)) }

  // ---- Values that do not end in two tildes ------------------------------------------

  /** How many own letters a text begins with, put in front of one that begins with `k`. */
  function Lead(m: seq<Mark>, k: nat): nat {
    if m == [] then k else if m[0] == Own then 1 + Lead(m[1..], k) else 0
  }

  /** A tilde in front of a text that begins with `k` own letters and has nothing to be
      replaced: how many own letters there will be in front, after how many replacements. */
  function Tilded(v: seq<Mark>, k: nat): (nat, nat) {
    if k == 0 then (0, 0)
    else if v != [] && v[|v| - 1] == Tilde then
      var (run, steps) := Tilded(v, k - 1);
      (Lead(v[..|v| - 1], run), steps + 1)
    else (Lead(v, k - 1), 1)
  }

  /** The same for a whole text in front, taken from its end. */
  function Folded(m: seq<Mark>, v: seq<Mark>, k: nat): (nat, nat) {
    if m == [] then (k, 0)
    else
      var (run, steps) := Folded(m[1..], v, k);
      match m[0]
      case Own => (run + 1, steps)
      case Other => (0, steps)
      case Tilde => (Tilded(v, run).0, steps + Tilded(v, run).1)
  }

  lemma {:induction false} FoldedAppend(a: seq<Mark>, b: seq<Mark>, v: seq<Mark>, k: nat)
    ensures var (run, steps) := Folded(b, v, k);
      Folded(a + b, v, k) == (Folded(a, v, run).0, Folded(a, v, run).1 + steps)
  {
    Front(a, b);
    if a != [] { FoldedAppend(a[1..], b, v, k); }
  }

  /** Tildes inside an inert text stay. */
  lemma {:induction false} InertFolded(w: seq<Mark>, v: seq<Mark>, k: nat)
    requires Inert(w) && (w != [] && w[|w| - 1] == Tilde ==> k == 0)
    ensures Folded(w, v, k) == (Lead(w, k), 0)
  {
    if w != [] {
      var t := w[1..];
      assert forall p :: 0 <= p < |t| ==> HitAt(t, p) == HitAt(w, p + 1);
      assert t != [] ==> t[|t| - 1] == w[|w| - 1];
      InertFolded(t, v, k);
      if w[0] == Tilde {
        assert !HitAt(w, 0);
        assert Lead(t, k) == 0;
      }
    }
  }

  /** The value in place costs what the tilde in front of one more letter cost, less the
      replacement itself. */
  lemma ValueFolded(v: seq<Mark>, k: nat)
    requires Inert(v) && !EndsDouble(v)
    ensures Folded(v, v, k) == (Tilded(v, k + 1).0, Tilded(v, k + 1).1 - 1) && Tilded(v, k + 1).1 > 0
  {
    if v != [] && v[|v| - 1] == Tilde {
      var w := v[..|v| - 1];
      assert v == w + [Tilde];
      assert forall p :: 0 <= p < |w| ==> HitAt(w, p) ==> HitAt(v, p);
      FoldedAppend(w, [Tilde], v, k);
      assert [Tilde][1..] == [] && Folded([Tilde], v, k) == Tilded(v, k);
      InertFolded(w, v, Tilded(v, k).0);
    } else {
      InertFolded(v, v, k);
    }
  }

  lemma FoldedHit(v: seq<Mark>, k: nat)
    ensures Folded([Tilde, Own], v, k) == Tilded(v, k + 1)
  {
    assert [Tilde, Own][1..] == [Own] && [Own][1..] == [];
    assert Folded([Own], v, k) == (k + 1, 0);
  }

  lemma FoldedReplaced(m: seq<Mark>, p: nat, v: seq<Mark>)
    requires HitAt(m, p) && Inert(v) && !EndsDouble(v)
    ensures Folded(m, v, 0).1 == Folded(Swapped(m, p, v), v, 0).1 + 1
  {
    var a, b := m[..p], m[p + 2..];
    var (run, steps) := Folded(b, v, 0);
    assert m == a + ([Tilde, Own] + b) && Swapped(m, p, v) == a + (v + b);
    FoldedAppend([Tilde, Own], b, v, 0);
    FoldedAppend(v, b, v, 0);
    FoldedHit(v, run);
    ValueFolded(v, run);
    FoldedAppend(a, [Tilde, Own] + b, v, 0);
    FoldedAppend(a, v + b, v, 0);
  }

  // ---- And their mirror images ---------------------------------------------------------

  function Flip(x: Mark): Mark { if x == Tilde then Own else if x == Own then Tilde else Other }

  /** Read backwards, with tildes and own letters exchanged: the loop is its own mirror image. */
  function Mirror(m: seq<Mark>): (r: seq<Mark>)
    ensures |r| == |m| && forall i :: 0 <= i < |m| ==> r[i] == Flip(m[|m| - 1 - i])
  {
    seq(|m|, i requires 0 <= i < |m| => Flip(m[|m| - 1 - i]))
  }

  lemma MirrorHit(m: seq<Mark>, p: nat, v: seq<Mark>)
    requires HitAt(m, p)
    ensures HitAt(Mirror(m), |m| - 2 - p)
    ensures Mirror(Swapped(m, p, v)) == Swapped(Mirror(m), |m| - 2 - p, Mirror(v))
  {
  }

  lemma MirrorTame(v: seq<Mark>)
    requires Inert(v)
    ensures Inert(Mirror(v)) && (EndsDouble(Mirror(v)) <==> BeginsDouble(v))
  {
    var r := Mirror(v);
    forall p | 0 <= p < |r| ensures !HitAt(r, p) {
      if p + 1 < |r| { assert !HitAt(v, |v| - 2 - p); }
    }
  }

  // ---- The loop ends ------------------------------------------------------------------------

  /** How many replacements a tame value leaves to be made. */
  function Left(m: seq<Mark>, v: seq<Mark>): nat {
    if EndsDouble(v) then Folded(Mirror(m), Mirror(v), 0).1 else Folded(m, v, 0).1
  }

  /** Wherever a tame value replaces, there is exactly one replacement less to be made. */
  lemma OneLess(m: seq<Mark>, p: nat, v: seq<Mark>)
    requires Tame(v) && HitAt(m, p)
    ensures Left(m, v) == Left(Swapped(m, p, v), v) + 1
  {
    if EndsDouble(v) {
      MirrorTame(v);
      MirrorHit(m, p, v);
      FoldedReplaced(Mirror(m), |m| - 2 - p, Mirror(v));
    } else {
      FoldedReplaced(m, p, v);
    }
  }

  /** A text without a hit has none to be made. */
  lemma NoneLeft(m: seq<Mark>, v: seq<Mark>)
    requires Inert(m)
    ensures Left(m, v) == 0
  {
    InertFolded(m, v, 0);
    MirrorTame(m);
    InertFolded(Mirror(m), Mirror(v), 0);
  }

  // ---- The loop does not end ---------------------------------------------------------------

  /** A tilde in front of two own letters, or two tildes in front of one. */
  predicate FedAt(m: seq<Mark>, q: nat) {
    q + 2 < |m| && m[q] == Tilde && m[q + 2] == Own && m[q + 1] != Other
  }

  predicate Fed(m: seq<Mark>) { exists q :: 0 <= q < |m| && FedAt(m, q) }

  lemma FedIsHit(m: seq<Mark>)
    requires Fed(m)
    ensures !Inert(m)
  {
    var q :| 0 <= q < |m| && FedAt(m, q);
    assert HitAt(m, if m[q + 1] == Own then q else q + 1);
  }

  /** It survives every replacement by a value that begins with two own letters and ends
      with two tildes. */
  lemma FedStays(m: seq<Mark>, p: nat, v: seq<Mark>)
    requires Fed(m) && HitAt(m, p) && BeginsDouble(v) && EndsDouble(v)
    ensures Fed(Swapped(m, p, v))
  {
    var r := Swapped(m, p, v);
    var q :| 0 <= q < |m| && FedAt(m, q);
    if q + 2 < p {
      assert FedAt(r, q);
    } else if q >= p + 2 {
      assert FedAt(r, q - 2 + |v|);
    } else if q == p {
      assert r[p + |v|] == m[p + 2] == Own;
      assert FedAt(r, p + |v| - 2);
    } else {
      assert q + 1 == p;
      assert r[q] == Tilde && r[p] == v[0] && r[p + 1] == v[1];
      assert FedAt(r, q);
    }
  }

  /** A value that is not inert brings a hit with it. */
  lemma ValueIsHit(m: seq<Mark>, p: nat, v: seq<Mark>)
    requires p + 2 <= |m| && !Inert(v)
    ensures !Inert(Swapped(m, p, v))
  {
    var q :| 0 <= q < |v| && HitAt(v, q);
    assert HitAt(Swapped(m, p, v), p + q);
  }
}
