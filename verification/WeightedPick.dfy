/** Weighted choice by cumulative search, and how often each index is chosen.

    The multipath scheduler, weighted round-robin and the IP hash all walk a
    list of weights, add them up and stop at the first running total above a
    residue; when none is, they fall back to the last entry. */
module WeightedPick {
  import opened Arithmetic

  function Total(ws: seq<nat>): nat
  {
    if |ws| == 0 then 0 else ws[0] + Total(ws[1..])
  }

  /** The index the cumulative search stops at for residue `r`. */
  function Pick(ws: seq<nat>, r: nat): (i: nat)
    requires |ws| > 0
    ensures i < |ws|
  {
    if r < ws[0] || |ws| == 1 then 0 else 1 + Pick(ws[1..], r - ws[0])
  }

  /** How many of the `n` residues `lo % t, (lo + 1) % t, ...` select index `i`. */
  ghost function Hits(ws: seq<nat>, t: nat, lo: nat, n: nat, i: nat): nat
    requires |ws| > 0 && t > 0
  {
    if n == 0 then 0 else Hits(ws, t, lo, n - 1, i) + Hit(ws, (lo + n - 1) % t, i)
  }

  ghost function Hit(ws: seq<nat>, r: nat, i: nat): nat
    requires |ws| > 0
  {
    if Pick(ws, r) == i then 1 else 0
  }

  lemma {:induction false} TotalAppend(ws: seq<nat>, k: nat)
    requires k < |ws|
    ensures Total(ws[..k + 1]) == Total(ws[..k]) + ws[k]
  {
    if k == 0 {
      assert ws[..1][1..] == [];
    } else {
      TotalAppend(ws[1..], k - 1);
      assert ws[..k + 1][1..] == ws[1..][..k];
      assert ws[..k][1..] == ws[1..][..k - 1];
    }
  }

  lemma {:induction false} TotalMonotone(ws: seq<nat>, j: nat, k: nat)
    requires j <= k <= |ws|
    ensures Total(ws[..j]) <= Total(ws[..k]) <= Total(ws)
    decreases |ws| - j
  {
    if j < k {
      TotalAppend(ws, j);
      TotalMonotone(ws, j + 1, k);
    } else if k < |ws| {
      TotalAppend(ws, k);
      TotalMonotone(ws, k + 1, k + 1);
    } else {
      assert ws[..k] == ws;
    }
  }

  /** Residue `r` selects `i` exactly when it lies in the i-th interval; the
      last interval is open-ended, which is the trailing fallback. */
  lemma {:induction false} PickInterval(ws: seq<nat>, r: nat, i: nat)
    requires i < |ws|
    ensures Pick(ws, r) == i <==>
            Total(ws[..i]) <= r && (r < Total(ws[..i + 1]) || i == |ws| - 1)
  {
    TotalAppend(ws, i);
    if i == 0 {
      assert ws[..0] == [];
    } else if |ws| > 1 {
      assert ws[..i][1..] == ws[1..][..i - 1];
      assert ws[..i + 1][1..] == ws[1..][..i];
      if r >= ws[0] {
        PickInterval(ws[1..], r - ws[0], i - 1);
      }
    }
  }

  /** An entry of weight zero is chosen only by the trailing fallback. */
  lemma ZeroWeightNeverPicked(ws: seq<nat>, r: nat)
    requires |ws| > 0 && r < Total(ws)
    ensures ws[Pick(ws, r)] > 0
  {
    var i := Pick(ws, r);
    PickInterval(ws, r, i);
    TotalAppend(ws, i);
    assert ws[..|ws|] == ws;
  }

  /** The end of the i-th interval when residues run up to `t`. */
  ghost function Upper(ws: seq<nat>, t: nat, i: nat): nat
    requires i < |ws|
  {
    if i == |ws| - 1 then t else Total(ws[..i + 1])
  }

  /** The share of index `i` among the residues below `t`: its weight, and for
      the last index also every residue no weight covers. */
  ghost function Share(ws: seq<nat>, t: nat, i: nat): int
    requires i < |ws|
  {
    ws[i] + if i == |ws| - 1 then t - Total(ws) else 0
  }

  ghost function Overlap(lo: nat, hi: nat, n: nat): int
  {
    if n <= lo then 0 else if n <= hi then n - lo else hi - lo
  }

  lemma {:induction false} HitsPrefix(ws: seq<nat>, t: nat, n: nat, i: nat)
    requires i < |ws| && Total(ws) <= t && 0 < t && n <= t
    ensures Total(ws[..i]) <= Upper(ws, t, i)
    ensures Hits(ws, t, 0, n, i) == Overlap(Total(ws[..i]), Upper(ws, t, i), n)
    decreases n
  {
    UpperBounds(ws, t, i);
    if n > 0 {
      HitsPrefix(ws, t, n - 1, i);
      PickInterval(ws, n - 1, i);
      ModUnique(n - 1, t, 0, n - 1);
      assert Hits(ws, t, 0, n, i) == Hits(ws, t, 0, n - 1, i) + Hit(ws, n - 1, i);
    }
  }

  lemma UpperBounds(ws: seq<nat>, t: nat, i: nat)
    requires i < |ws| && Total(ws) <= t
    ensures Total(ws[..i]) <= Upper(ws, t, i) <= t
    ensures Upper(ws, t, i) - Total(ws[..i]) == Share(ws, t, i)
  {
    TotalMonotone(ws, i, i + 1);
    TotalAppend(ws, i);
    assert ws[..|ws|] == ws;
  }

  /** Among the residues 0 .. t-1 each index has exactly its share. */
  lemma HitsFullCycle(ws: seq<nat>, t: nat, i: nat)
    requires i < |ws| && Total(ws) <= t && 0 < t
    ensures Hits(ws, t, 0, t, i) == Share(ws, t, i)
  {
    HitsPrefix(ws, t, t, i);
    UpperBounds(ws, t, i);
  }

  lemma {:induction false} HitsFront(ws: seq<nat>, t: nat, lo: nat, n: nat, i: nat)
    requires i < |ws| && t > 0
    ensures Hits(ws, t, lo, n + 1, i) == Hit(ws, lo % t, i) + Hits(ws, t, lo + 1, n, i)
    decreases n
  {
    if n > 0 {
      HitsFront(ws, t, lo, n - 1, i);
    }
  }

  /** Any `t` consecutive residues give each index exactly its share, wherever
      they start. */
  lemma {:induction false} HitsWindow(ws: seq<nat>, t: nat, lo: nat, i: nat)
    requires i < |ws| && Total(ws) <= t && 0 < t
    ensures Hits(ws, t, lo, t, i) == Share(ws, t, i)
    decreases lo
  {
    if lo == 0 {
      HitsFullCycle(ws, t, i);
    } else {
      HitsWindow(ws, t, lo - 1, i);
      HitsFront(ws, t, lo - 1, t, i);
      NextResidue(lo - 1, t);
      assert lo - 1 + (t + 1) - 1 == lo - 1 + t;
      assert Hits(ws, t, lo - 1, t + 1, i) == Hits(ws, t, lo - 1, t, i) + Hit(ws, (lo - 1 + t) % t, i);
    }
  }

  /** Only the starting residue matters. */
  lemma {:induction false} HitsResidue(ws: seq<nat>, t: nat, lo: nat, n: nat, i: nat)
    requires i < |ws| && t > 0
    ensures Hits(ws, t, lo, n, i) == Hits(ws, t, lo % t, n, i)
    decreases n
  {
    if n > 0 {
      HitsResidue(ws, t, lo, n - 1, i);
      ModAdd(lo, t, n - 1);
      assert lo % t + n - 1 == lo % t + (n - 1) && lo + n - 1 == lo + (n - 1);
    }
  }

  lemma {:induction false} HitsBounds(ws: seq<nat>, t: nat, lo: nat, n: nat, m: nat, i: nat)
    requires i < |ws| && t > 0 && n <= m
    ensures Hits(ws, t, lo, n, i) <= Hits(ws, t, lo, m, i)
    decreases m - n
  {
    if n < m {
      HitsBounds(ws, t, lo, n, m - 1, i);
    }
  }

  lemma {:induction false} HitsSplit(ws: seq<nat>, t: nat, lo: nat, n: nat, m: nat, i: nat)
    requires i < |ws| && t > 0
    ensures Hits(ws, t, lo, n + m, i) == Hits(ws, t, lo, n, i) + Hits(ws, t, lo + n, m, i)
    decreases m
  {
    if m > 0 {
      HitsSplit(ws, t, lo, n, m - 1, i);
    }
  }

  lemma {:induction false} HitsCycles(ws: seq<nat>, t: nat, q: nat, i: nat)
    requires i < |ws| && t > 0 && t == Total(ws)
    ensures Hits(ws, t, 0, q * t, i) == q * ws[i]
    decreases q
  {
    if q > 0 {
      HitsCycles(ws, t, q - 1, i);
      Distribute(q - 1, 1, t);
      Distribute(q - 1, 1, ws[i]);
      NonNegative(q - 1, t);
      HitsSplit(ws, t, 0, (q - 1) * t, t, i);
      HitsWindow(ws, t, (q - 1) * t, i);
    }
  }

  function CeilDiv(n: nat, t: nat): nat
    requires t > 0
  {
    if n % t == 0 then n / t else n / t + 1
  }

  /** Of the first `n` numbers taken modulo the total, index `i` gets between
      its weight times floor(n / total) and its weight times ceil(n / total). */
  lemma HitsRange(ws: seq<nat>, n: nat, i: nat)
    requires i < |ws| && Total(ws) > 0
    ensures (n / Total(ws)) * ws[i] <= Hits(ws, Total(ws), 0, n, i) <= CeilDiv(n, Total(ws)) * ws[i]
  {
    var t := Total(ws);
    var q := n / t;
    DivMod(n, t);
    NonNegative(q, t);
    HitsCycles(ws, t, q, i);
    HitsBounds(ws, t, 0, q * t, n, i);
    if n % t != 0 {
      HitsCeil(ws, t, q, n, i);
    }
  }

  lemma HitsCeil(ws: seq<nat>, t: nat, q: nat, n: nat, i: nat)
    requires i < |ws| && t > 0 && t == Total(ws) && n <= q * t + t
    ensures Hits(ws, t, 0, n, i) <= (q + 1) * ws[i]
  {
    Distribute(q, 1, t);
    HitsCycles(ws, t, q + 1, i);
    HitsBounds(ws, t, 0, n, (q + 1) * t, i);
  }

  /** Equal weights of one make the search a plain index. */
  lemma {:induction false} PickOnes(ws: seq<nat>, r: nat)
    requires |ws| > 0 && forall j :: 0 <= j < |ws| ==> ws[j] == 1
    ensures Total(ws) == |ws|
    ensures r < |ws| ==> Pick(ws, r) == r
  {
    if |ws| > 1 {
      PickOnes(ws[1..], if r > 0 then r - 1 else 0);
    }
  }
}
