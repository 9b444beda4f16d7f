/** The per-bit read and write tests (`rw_mgr_mem_calibrate_read_test`,
    `rw_mgr_mem_calibrate_write_test`): one word of pass bits is assembled from the error words of
    the virtual groups, and the words of the ranks are ANDed together. */
module BitCheck {
  import opened Words

  /** The error word the read/write manager returns for a (rank, virtual group). */
  type ErrorWords = (nat, nat) -> Word

  /** Rank r reported no error at pin k % w of virtual group k / w. */
  predicate RankGood(err: ErrorWords, r: nat, vgs: nat, w: nat, k: nat)
    requires w > 0 && vgs * w <= WIDTH
  {
    k < vgs * w && !err(r, k / w)[PinOf(vgs, w, k)]
  }

  /** The pin of bit k inside its virtual group. */
  function PinOf(vgs: nat, w: nat, k: nat): (p: nat)
    requires w > 0 && k < vgs * w <= WIDTH
    ensures p == k % w < WIDTH
  {
    assert w <= k ==> k % w <= k;
    k % w
  }

  /** No rank that takes part reported an error at bit k. */
  predicate BitGood(err: ErrorWords, skipRanks: seq<bool>, rankBgn: nat, rankEnd: nat, vgs: nat, w: nat, k: nat)
    requires w > 0 && vgs * w <= WIDTH && rankEnd <= |skipRanks|
  {
    forall r :: rankBgn <= r < rankEnd && !skipRanks[r] ==> RankGood(err, r, vgs, w, k)
  }

  /** Dropping one whole virtual group from a bit position. */
  lemma DropGroup(k: nat, w: nat)
    requires 0 < w <= k
    ensures (k - w) % w == k % w && (k - w) / w == k / w - 1 && k / w >= 1
  {
    DivMod(k - w, w, k / w - 1, k % w);
  }

  /** Bit k of a word assembled so far from n bits of the groups vg, vg + 1, ... */
  predicate PartGood(err: ErrorWords, r: nat, vg: nat, n: nat, w: nat, k: nat)
    requires w > 0
  {
    k < n && k % w < WIDTH && !err(r, vg + k / w)[k % w]
  }

  lemma PartStep(err: ErrorWords, r: nat, vg: nat, n: nat, w: nat, k: nat)
    requires w > 0 && k < WIDTH
    ensures PartGood(err, r, vg, n + w, w, k) <==> if k < w then !err(r, vg)[k] else PartGood(err, r, vg + 1, n, w, k - w)
  {
    if k < w {
      DivMod(k, w, 0, k);
    } else {
      DropGroup(k, w);
    }
  }

  /** A word holds what the groups from vg on, n bits of them, reported. */
  ghost predicate Holds(tmp: Word, err: ErrorWords, r: nat, vg: nat, n: nat, w: nat)
    requires w > 0
  {
    forall k: nat :: k < WIDTH ==> (tmp[k] <==> PartGood(err, r, vg, n, w, k))
  }

  lemma AssembleStep(before: Word, after: Word, err: ErrorWords, r: nat, vg: nat, n: nat, w: nat)
    requires w > 0 && Holds(before, err, r, vg + 1, n, w)
    requires after == Or(Shl(before, w), And(Mask(w), Not(err(r, vg))))
    ensures Holds(after, err, r, vg, n + w, w)
  {
    forall k: nat | k < WIDTH
      ensures after[k] <==> PartGood(err, r, vg, n + w, w, k)
    {
      PartStep(err, r, vg, n, w, k);
      assert after[k] == if k < w then !err(r, vg)[k] else before[k - w];
    }
  }

  /** The virtual-group loop of one rank: shift the word up, OR in the next group's pass bits. */
  method AssembleRank(err: ErrorWords, r: nat, vgs: nat, w: nat) returns (tmp: Word)
    requires vgs >= 1 && w >= 1 && vgs * w <= WIDTH
    ensures forall k: nat :: k < WIDTH ==> (tmp[k] <==> k < vgs * w && RankGood(err, r, vgs, w, k))
  {
    tmp := ZERO;
    var vg := vgs;
    ghost var n: nat := 0;
    while vg > 0
      invariant 0 <= vg <= vgs && n == Times(vgs - vg, w)
      invariant Holds(tmp, err, r, vg, n, w)
    {
      ghost var before := tmp;
      vg := vg - 1;
      tmp := Shl(tmp, w);
      tmp := Or(tmp, And(Mask(w), Not(err(r, vg))));
      AssembleStep(before, tmp, err, r, vg, n, w);
      n := n + w;
    }
    TimesIsProduct(vgs, w);
  }

  /** Bit k of the result is set iff every rank that is not skipped passed at bit k; the verdict is
      "all bits" or "at least one bit" as the caller asks. */
  method BitTest(err: ErrorWords, skipRanks: seq<bool>, rankBgn: nat, rankEnd: nat, vgs: nat, w: nat, allCorrect: bool)
    returns (bitChk: Word, pass: bool)
    requires rankBgn <= rankEnd <= |skipRanks|
    requires vgs >= 1 && w >= 1 && vgs * w <= WIDTH
    ensures forall k: nat :: k < WIDTH ==>
      (bitChk[k] <==> k < vgs * w && BitGood(err, skipRanks, rankBgn, rankEnd, vgs, w, k))
    ensures pass <==> if allCorrect then forall k: nat :: k < vgs * w ==> BitGood(err, skipRanks, rankBgn, rankEnd, vgs, w, k)
                      else exists k: nat :: k < vgs * w && BitGood(err, skipRanks, rankBgn, rankEnd, vgs, w, k)
  {
    bitChk := Mask(vgs * w);
    var r := rankBgn;
    while r < rankEnd
      invariant rankBgn <= r <= rankEnd
      invariant forall k: nat :: k < WIDTH ==>
        (bitChk[k] <==> k < vgs * w && BitGood(err, skipRanks, rankBgn, r, vgs, w, k))
    {
      if !skipRanks[r] {
        var tmp := AssembleRank(err, r, vgs, w);
        bitChk := And(bitChk, tmp);
      }
      r := r + 1;
    }
    if allCorrect {
      pass := bitChk == Mask(vgs * w);
      if !pass {
        var k :| 0 <= k < WIDTH && bitChk[k] != Mask(vgs * w)[k];
      }
    } else {
      pass := bitChk != ZERO;
      if pass {
        var k :| 0 <= k < WIDTH && bitChk[k] != ZERO[k];
      }
    }
  }
}
