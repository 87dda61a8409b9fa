/** The outputs of one transaction that are still unspent, and what spending one of them does and undoes. */
module Coins {
  import opened Options

  type Byte = x: int | 0 <= x < 256

  /** An output; a value of -1 marks a spent one. */
  datatype TxOut = TxOut(nValue: int, scriptPubKey: seq<Byte>)

  const NULL_OUT: TxOut := TxOut(-1, [])

  predicate IsNull(o: TxOut) { o.nValue == -1 }

  datatype Coins = Coins(fCoinBase: bool, fCoinStake: bool, vout: seq<TxOut>, nHeight: int, nVersion: int)

  const EMPTY: Coins := Coins(false, false, [], 0, 0)

  predicate AllNull(v: seq<TxOut>) { forall i :: 0 <= i < |v| ==> IsNull(v[i]) }

  /** No output is left; caches read such an entry like a missing one. */
  predicate IsPruned(c: Coins) { AllNull(c.vout) }

  /** Without the spent outputs at the end. */
  function Trimmed(v: seq<TxOut>): seq<TxOut> {
    if v == [] || !IsNull(v[|v| - 1]) then v else Trimmed(v[..|v| - 1])
  }

  /** What Cleanup leaves alone. */
  predicate Clean(c: Coins) { c.vout == [] || !IsNull(c.vout[|c.vout| - 1]) }

  function Cleaned(c: Coins): Coins { c.(vout := Trimmed(c.vout)) }

  /** Trimming keeps every unspent output where it is, drops spent ones only, and is complete. */
  lemma {:induction false} TrimmedKeeps(v: seq<TxOut>)
    ensures var w := Trimmed(v);
            && |w| <= |v| && w == v[..|w|] && AllNull(v[|w|..])
            && (w == [] || !IsNull(w[|w| - 1]))
            && (w == [] <==> AllNull(v)) && AllNull(w) == AllNull(v) && Trimmed(w) == w
  {
    if v != [] && IsNull(v[|v| - 1]) {
      var u := v[..|v| - 1];
      TrimmedKeeps(u);
      var w := Trimmed(v);
      assert w == v[..|w|];
      assert forall i :: 0 <= i < |u| ==> v[i] == u[i];
      assert v[|w|..] == u[|w|..] + [v[|v| - 1]];
    } else {
      assert v == v[..|v|];
      if v != [] { assert !IsNull(v[|v| - 1]); }
    }
  }

  lemma CleanIsTrimmed(c: Coins)
    ensures Clean(c) <==> Cleaned(c) == c
    ensures Clean(c) ==> (IsPruned(c) <==> c.vout == [])
    ensures Clean(Cleaned(c)) && (IsPruned(Cleaned(c)) <==> IsPruned(c))
  {
    TrimmedKeeps(c.vout);
  }

  method Cleanup(v: seq<TxOut>) returns (w: seq<TxOut>)
    ensures w == Trimmed(v)
  {
    w := v;
    while |w| > 0 && IsNull(w[|w| - 1])
      invariant Trimmed(w) == Trimmed(v)
    {
      w := w[..|w| - 1];
    }
  }

  method CheckPruned(c: Coins) returns (pruned: bool)
    ensures pruned == IsPruned(c)
  {
    for i := 0 to |c.vout|
      invariant AllNull(c.vout[..i])
    {
      if !IsNull(c.vout[i]) {
        return false;
      }
      assert c.vout[..i + 1] == c.vout[..i] + [c.vout[i]];
    }
    assert c.vout[..|c.vout|] == c.vout;
    return true;
  }

  // ---------------------------------------------------------------- spending and undoing one output

  /** A spent output; the fields of its transaction come with the last one only. */
  datatype TxInUndo = TxInUndo(txout: TxOut, fCoinBase: bool, fCoinStake: bool, nHeight: int, nVersion: int)

  predicate Unspent(c: Coins, n: nat) { n < |c.vout| && !IsNull(c.vout[n]) }

  /** The coins and the undo data after marking output `n` spent, if it was unspent. */
  function Spent(c: Coins, n: nat): Option<(Coins, TxInUndo)> {
    if !Unspent(c, n) then None
    else
      var c' := Cleaned(c.(vout := c.vout[n := NULL_OUT]));
      Some((c', if |c'.vout| == 0 then TxInUndo(c.vout[n], c.fCoinBase, c.fCoinStake, c.nHeight, c.nVersion)
                else TxInUndo(c.vout[n], false, false, 0, 0)))
  }

  /** Exactly output `n` is gone, every other one is where it was, and the result is clean. */
  lemma SpentOne(c: Coins, n: nat, k: nat)
    ensures Spent(c, n).Some? <==> Unspent(c, n)
    ensures Unspent(c, n) ==>
              var c' := Spent(c, n).value.0;
              && Clean(c') && (Unspent(c', k) <==> k != n && Unspent(c, k))
              && (Unspent(c', k) ==> c'.vout[k] == c.vout[k])
  {
    if Unspent(c, n) {
      var m := c.vout[n := NULL_OUT];
      TrimmedKeeps(m);
      var w := Trimmed(m);
      if |w| <= k < |m| { assert m[k] == m[|w|..][k - |w|]; }
    }
  }

  method Spend(c: Coins, n: nat) returns (r: Option<(Coins, TxInUndo)>)
    ensures r == Spent(c, n)
  {
    if n >= |c.vout| {
      return None;
    }
    if IsNull(c.vout[n]) {
      return None;
    }
    var undo := TxInUndo(c.vout[n], false, false, 0, 0);
    var vout := Cleanup(c.vout[n := NULL_OUT]);
    if |vout| == 0 {
      undo := undo.(nHeight := c.nHeight, fCoinBase := c.fCoinBase, fCoinStake := c.fCoinStake, nVersion := c.nVersion);
    }
    r := Some((c.(vout := vout), undo));
  }

  function Resized(v: seq<TxOut>, n: nat): seq<TxOut> { if |v| < n then v + seq(n - |v|, _ => NULL_OUT) else v }

  /** The coins after DisconnectBlock has put an output back; fCoinStake is not among what it restores. */
  function Restored(c: Coins, undo: TxInUndo, n: nat): Coins {
    var d := if undo.nHeight != 0 then EMPTY.(fCoinBase := undo.fCoinBase, nHeight := undo.nHeight, nVersion := undo.nVersion) else c;
    d.(vout := Resized(d.vout, n + 1)[n := undo.txout])
  }

  /** Spent outputs hold nothing: SetNull is the only source of a value of -1. */
  predicate Wiped(c: Coins) { forall i :: 0 <= i < |c.vout| && IsNull(c.vout[i]) ==> c.vout[i] == NULL_OUT }

  /** Spent and put back again. Undone exactly, except that the last output of a coinstake transaction
      comes back without its coinstake mark. */
  lemma SpendThenRestore(c: Coins, n: nat)
    requires Clean(c) && Wiped(c) && Unspent(c, n)
    ensures var (c', undo) := Spent(c, n).value;
            var lost := c'.vout == [] && c.nHeight != 0;
            && Restored(c', undo, n) == (if lost then c.(fCoinStake := false) else c)
            && (Restored(c', undo, n) == c <==> !(lost && c.fCoinStake))
  {
    hide Trimmed, Resized;
    var marked := c.vout[n := NULL_OUT];
    TrimmedKeeps(marked);
    RestoredOutputs(c.vout, n, Trimmed(marked));
    ResizedEmpty(n);
  }

  lemma ResizedEmpty(n: nat)
    ensures Resized([], n + 1) == seq(n + 1, _ => NULL_OUT)
  {}

  /** With all outputs from |w| on spent by now, the old ones have to be those of a clean entry. */
  lemma RestoredOutputs(v: seq<TxOut>, n: nat, w: seq<TxOut>)
    requires n < |v| && !IsNull(v[n]) && !IsNull(v[|v| - 1])
    requires forall i :: 0 <= i < |v| && IsNull(v[i]) ==> v[i] == NULL_OUT
    requires var m := v[n := NULL_OUT]; |w| <= |v| && w == m[..|w|] && AllNull(m[|w|..])
    ensures Resized(w, n + 1)[n := v[n]] == v
  {
    var m := v[n := NULL_OUT];
    assert forall k :: |w| <= k < |m| ==> m[k] == m[|w|..][k - |w|];
    if |w| < |v| { assert IsNull(m[|v| - 1]); }
    var r := Resized(w, n + 1)[n := v[n]];
    assert |r| == |v|;
    forall k | 0 <= k < |v| ensures r[k] == v[k] {
      if k != n { assert m[k] == v[k]; }
    }
  }
}
