/**
 The frozen ten-product book and the exposures measured on it. A weight vector is a
 sequence in the order of PRODUCTS; SECTOR_OF gives each product's place in SECTORS.
 */
module Book {
  import opened RealMath

  const PRODUCTS: seq<string> := ["ag", "al", "au", "bu", "cu", "rb", "ru", "sc", "sp", "zn"]

  const SECTORS: seq<string> :=
    ["energy", "energy_chemical", "ferrous", "light_industry", "nonferrous", "precious"]

  const SECTOR_OF: seq<nat> := [5, 4, 5, 1, 4, 2, 1, 0, 3, 4]

  datatype Measure = Net | Long | Short | Gross | Sector(id: nat)

  function Contribution(m: Measure, v: real, s: nat): real {
    match m
    case Net => v
    case Long => if v > 0.0 then v else 0.0
    case Short => if v < 0.0 then -v else 0.0
    case Gross => Abs(v)
    case Sector(id) => if s == id then Abs(v) else 0.0
  }

  /** One exposure of a weight vector whose products lie in the sectors `sec`. */
  function Total(m: Measure, w: seq<real>, sec: seq<nat>): real
    requires |w| <= |sec|
  {
    if w == [] then 0.0
    else Total(m, w[..|w| - 1], sec) + Contribution(m, w[|w| - 1], sec[|w| - 1])
  }

  lemma {:induction false} TotalNonNegative(m: Measure, w: seq<real>, sec: seq<nat>)
    requires |w| <= |sec| && m != Net
    ensures Total(m, w, sec) >= 0.0
  {
    if w != [] {
      TotalNonNegative(m, w[..|w| - 1], sec);
    }
  }

  /** Net exposure is the long leg less the short leg; gross exposure is their sum. */
  lemma {:induction false} LegsSplit(w: seq<real>, sec: seq<nat>)
    requires |w| <= |sec|
    ensures Total(Net, w, sec) == Total(Long, w, sec) - Total(Short, w, sec)
    ensures Total(Gross, w, sec) == Total(Long, w, sec) + Total(Short, w, sec)
  {
    if w != [] {
      LegsSplit(w[..|w| - 1], sec);
    }
  }

  /** `b` moves every weight of `a` toward zero, never past it. */
  ghost predicate ShrinksWeakly(a: seq<real>, b: seq<real>) {
    && |a| == |b|
    && forall i :: 0 <= i < |a| ==> (0.0 <= b[i] <= a[i] || a[i] <= b[i] <= 0.0)
  }

  /** As ShrinksWeakly, and no non-zero weight becomes zero. */
  ghost predicate Shrinks(a: seq<real>, b: seq<real>) {
    && ShrinksWeakly(a, b)
    && forall i :: 0 <= i < |a| && a[i] != 0.0 ==> b[i] != 0.0
  }

  /** Shrinking a vector shrinks every exposure except the net. */
  lemma {:induction false} ShrinkLowers(m: Measure, a: seq<real>, b: seq<real>, sec: seq<nat>)
    requires ShrinksWeakly(a, b) && |a| <= |sec| && m != Net
    ensures Total(m, b, sec) <= Total(m, a, sec)
  {
    if a != [] {
      ShrinkLowers(m, a[..|a| - 1], b[..|b| - 1], sec);
    }
  }

  /** Scaling each term of an exposure scales the exposure. */
  lemma {:induction false} TotalScaled(m: Measure, w: seq<real>, r: seq<real>, sec: seq<nat>, c: real)
    requires |w| == |r| <= |sec|
    requires forall i :: 0 <= i < |w| ==> IsScaled(c, Contribution(m, w[i], sec[i]), Contribution(m, r[i], sec[i]))
    ensures IsScaled(c, Total(m, w, sec), Total(m, r, sec))
    decreases |w|
  {
    if w != [] {
      var n := |w| - 1;
      TotalScaled(m, w[..n], r[..n], sec, c);
      ScaledSum(c, Total(m, w[..n], sec), Contribution(m, w[n], sec[n]),
                Total(m, r[..n], sec), Contribution(m, r[n], sec[n]));
    }
  }

  /** A leg with a non-zero member has a positive total. */
  lemma {:induction false} LegPositive(m: Measure, w: seq<real>, sec: seq<nat>, i: nat)
    requires i < |w| <= |sec| && m != Net && Contribution(m, w[i], sec[i]) > 0.0
    ensures Total(m, w, sec) > 0.0
  {
    var n := |w| - 1;
    TotalNonNegative(m, w[..n], sec);
    if i < n {
      LegPositive(m, w[..n], sec, i);
    }
  }

  lemma {:induction false} LegMember(m: Measure, w: seq<real>, sec: seq<nat>) returns (i: nat)
    requires |w| <= |sec| && Total(m, w, sec) > 0.0
    ensures i < |w| && Contribution(m, w[i], sec[i]) > 0.0
  {
    var n := |w| - 1;
    if Contribution(m, w[n], sec[n]) > 0.0 {
      i := n;
    } else {
      i := LegMember(m, w[..n], sec);
    }
  }

  /** An exposure listed in any product order is the same number. */
  lemma {:induction false} TotalAsSum(m: Measure, w: seq<real>, sec: seq<nat>, f: int -> real, idx: seq<int>)
    requires |w| <= |sec| && |w| == |idx|
    requires forall i :: 0 <= i < |w| ==> f(idx[i]) == Contribution(m, w[i], sec[i])
    ensures Total(m, w, sec) == SumOver(f, idx)
  {
    if w != [] {
      var n := |w| - 1;
      TotalAsSum(m, w[..n], sec, f, idx[..n]);
    }
  }

  function Part(v: real): real { if v > 0.0 then v else 0.0 }

  lemma Unfold(m: Measure, w: seq<real>, sec: seq<nat>, n: nat)
    requires n < |w| <= |sec|
    ensures Total(m, w[..n + 1], sec) == Total(m, w[..n], sec) + Contribution(m, w[n], sec[n])
  {
    assert w[..n + 1][..n] == w[..n];
  }

  lemma TenTerms(m: Measure, w: seq<real>, sec: seq<nat>)
    requires |w| == 10 <= |sec|
    ensures Total(m, w, sec)
         == Contribution(m, w[0], sec[0]) + Contribution(m, w[1], sec[1]) + Contribution(m, w[2], sec[2])
          + Contribution(m, w[3], sec[3]) + Contribution(m, w[4], sec[4]) + Contribution(m, w[5], sec[5])
          + Contribution(m, w[6], sec[6]) + Contribution(m, w[7], sec[7]) + Contribution(m, w[8], sec[8])
          + Contribution(m, w[9], sec[9])
  {
    hide Contribution, Total;
    assert Total(m, w[..0], sec) == 0.0 by { Nothing(m, sec); }
    Unfold(m, w, sec, 0);
    Unfold(m, w, sec, 1);
    Unfold(m, w, sec, 2);
    Unfold(m, w, sec, 3);
    Unfold(m, w, sec, 4);
    Unfold(m, w, sec, 5);
    Unfold(m, w, sec, 6);
    Unfold(m, w, sec, 7);
    Unfold(m, w, sec, 8);
    Unfold(m, w, sec, 9);
    assert w[..10] == w && w[..0] == [];
  }

  lemma Nothing(m: Measure, sec: seq<nat>)
    ensures Total(m, [], sec) == 0.0
  {}

  /** Every exposure of the ten products, written out: which ones count, and how. */
  lemma ExposuresWrittenOut(ag: real, al: real, au: real, bu: real, cu: real, rb: real, ru: real, sc: real, sp: real, zn: real)
    ensures var w := [ag, al, au, bu, cu, rb, ru, sc, sp, zn];
      && Total(Net, w, SECTOR_OF) == ag + al + au + bu + cu + rb + ru + sc + sp + zn
      && Total(Long, w, SECTOR_OF)
         == Part(ag) + Part(al) + Part(au) + Part(bu) + Part(cu) + Part(rb) + Part(ru) + Part(sc) + Part(sp) + Part(zn)
      && Total(Short, w, SECTOR_OF)
         == Part(-ag) + Part(-al) + Part(-au) + Part(-bu) + Part(-cu) + Part(-rb) + Part(-ru) + Part(-sc) + Part(-sp) + Part(-zn)
      && Total(Gross, w, SECTOR_OF)
         == Abs(ag) + Abs(al) + Abs(au) + Abs(bu) + Abs(cu) + Abs(rb) + Abs(ru) + Abs(sc) + Abs(sp) + Abs(zn)
      && Total(Sector(0), w, SECTOR_OF) == Abs(sc)
      && Total(Sector(1), w, SECTOR_OF) == Abs(bu) + Abs(ru)
      && Total(Sector(2), w, SECTOR_OF) == Abs(rb)
      && Total(Sector(3), w, SECTOR_OF) == Abs(sp)
      && Total(Sector(4), w, SECTOR_OF) == Abs(al) + Abs(cu) + Abs(zn)
      && Total(Sector(5), w, SECTOR_OF) == Abs(ag) + Abs(au)
  {
    hide Total, Abs;
    var w := [ag, al, au, bu, cu, rb, ru, sc, sp, zn];
    TenTerms(Net, w, SECTOR_OF);
    TenTerms(Long, w, SECTOR_OF);
    TenTerms(Short, w, SECTOR_OF);
    TenTerms(Gross, w, SECTOR_OF);
    TenTerms(Sector(0), w, SECTOR_OF);
    TenTerms(Sector(1), w, SECTOR_OF);
    TenTerms(Sector(2), w, SECTOR_OF);
    TenTerms(Sector(3), w, SECTOR_OF);
    TenTerms(Sector(4), w, SECTOR_OF);
    TenTerms(Sector(5), w, SECTOR_OF);
  }
}
