/** Spending the inputs of a transaction and undoing it when its block is disconnected. */
module CoinsUndo {
  import opened Options
  import opened Coins
  import opened CoinsCache

  datatype OutPoint = OutPoint(hash: Txid, n: nat)

  /** A set of unspent outputs: trimmed entries with something in them, and none of height 0, which the
      undo data uses to say that it has no height. */
  ghost predicate UnspentSet(m: map<Txid, Coins>) { forall id :: id in m ==> Listed(m[id]) }

  predicate Listed(c: Coins) { Clean(c) && Wiped(c) && !IsPruned(c) && c.nHeight != 0 }

  function CoinsAt(m: map<Txid, Coins>, id: Txid): Coins { if id in m then m[id] else EMPTY }

  /** A modifier on the entry, Spend, and the end of the modifier. */
  function SpendInput(m: map<Txid, Coins>, o: OutPoint): Option<(map<Txid, Coins>, TxInUndo)> {
    var r := Spent(CoinsAt(m, o.hash), o.n);
    if r.None? then None else Some((Put(m, o.hash, Norm(Some(r.value.0))), r.value.1))
  }

  /** UpdateCoins on the inputs of a transaction, first to last. */
  function SpendInputs(m: map<Txid, Coins>, outs: seq<OutPoint>): Option<(map<Txid, Coins>, seq<TxInUndo>)> {
    if outs == [] then Some((m, []))
    else
      var r := SpendInput(m, outs[0]);
      if r.None? then None
      else
        var rest := SpendInputs(r.value.0, outs[1..]);
        if rest.None? then None else Some((rest.value.0, [r.value.1] + rest.value.1))
  }

  function RestoreInput(m: map<Txid, Coins>, o: OutPoint, undo: TxInUndo): map<Txid, Coins> {
    Put(m, o.hash, Norm(Some(Restored(CoinsAt(m, o.hash), undo, o.n))))
  }

  /** DisconnectBlock on the inputs of a transaction, last to first. */
  function RestoreInputs(m: map<Txid, Coins>, outs: seq<OutPoint>, undos: seq<TxInUndo>): map<Txid, Coins>
    requires |outs| == |undos|
  {
    if outs == [] then m
    else RestoreInput(RestoreInputs(m, outs[1..], undos[1..]), outs[0], undos[0])
  }

  /** What comes back: everything but the coinstake marks of the transactions that were spent completely. */
  function WithoutStakes(m: map<Txid, Coins>, after: map<Txid, Coins>): map<Txid, Coins> {
    map id | id in m :: if id in after then m[id] else m[id].(fCoinStake := false)
  }

  lemma SpendInputKeeps(m: map<Txid, Coins>, o: OutPoint)
    requires UnspentSet(m) && SpendInput(m, o).Some?
    ensures var (m', undo) := SpendInput(m, o).value;
            && UnspentSet(m') && m'.Keys <= m.Keys && o.hash in m && Unspent(m[o.hash], o.n)
            && (forall id :: id in m && id != o.hash ==> id in m' && m'[id] == m[id])
            && (var c' := Spent(m[o.hash], o.n).value.0;
                undo == Spent(m[o.hash], o.n).value.1 && (o.hash in m' <==> c'.vout != []) && (o.hash in m' ==> m'[o.hash] == c'))
  {
    hide Trimmed;
    var id := o.hash;
    NotUnspent(o.n);
    var c := m[id];
    SpentListed(c, o.n);
    hide Spent, Clean, Wiped, IsPruned, Unspent, Cleaned;
    var c' := Spent(c, o.n).value.0;
    assert Put(m, id, Norm(Some(c'))) == if c'.vout == [] then m - {id} else m[id := c'];
  }

  lemma NotUnspent(n: nat)
    ensures Spent(EMPTY, n) == None
  {}

  /** What is left of an entry is either nothing or a trimmed entry again. */
  lemma SpentListed(c: Coins, n: nat)
    requires Listed(c) && Spent(c, n).Some?
    ensures var c' := Spent(c, n).value.0;
            && Unspent(c, n) && (IsPruned(c') <==> c'.vout == []) && Cleaned(c') == c' && (c'.vout != [] ==> Listed(c'))
  {
    var marked := c.vout[n := NULL_OUT];
    TrimmedKeeps(marked);
    var c' := Spent(c, n).value.0;
    CleanIsTrimmed(c');
    hide Trimmed;
    forall i | 0 <= i < |c'.vout| && IsNull(c'.vout[i]) ensures c'.vout[i] == NULL_OUT {
      assert c'.vout[i] == marked[i];
    }
  }

  /** One input put back, given that all later ones are back. */
  lemma RestoreOne(m: map<Txid, Coins>, o: OutPoint, after: map<Txid, Coins>)
    requires UnspentSet(m) && SpendInput(m, o).Some? && after.Keys <= SpendInput(m, o).value.0.Keys
    ensures var (m', undo) := SpendInput(m, o).value;
            RestoreInput(WithoutStakes(m', after), o, undo) == WithoutStakes(m, after)
  {
    hide Trimmed, Clean, Wiped, IsPruned, Unspent, Restored, Spent, Put, Listed, Norm;
    SpendInputKeeps(m, o);
    var (m', undo) := SpendInput(m, o).value;
    var r := RestoredInput(m, o, after);
    forall id ensures At(RestoreInput(WithoutStakes(m', after), o, undo), id) == At(WithoutStakes(m, after), id) {
      PutAt(WithoutStakes(m', after), o.hash, Some(r), id);
    }
    SameMap(RestoreInput(WithoutStakes(m', after), o, undo), WithoutStakes(m, after));
  }

  /** The entry of the transaction whose output is put back. */
  lemma RestoredInput(m: map<Txid, Coins>, o: OutPoint, after: map<Txid, Coins>) returns (r: Coins)
    requires UnspentSet(m) && SpendInput(m, o).Some? && after.Keys <= SpendInput(m, o).value.0.Keys && o.hash in m
    ensures var (m', undo) := SpendInput(m, o).value;
            && Restored(CoinsAt(WithoutStakes(m', after), o.hash), undo, o.n) == r && Norm(Some(r)) == Some(r)
            && r == if o.hash in after then m[o.hash] else m[o.hash].(fCoinStake := false)
  {
    hide Trimmed, Put, Norm;
    SpendInputKeeps(m, o);
    var (m', undo) := SpendInput(m, o).value;
    var c := m[o.hash];
    assert Listed(c);
    SpendThenRestore(c, o.n);
    r := Restored(CoinsAt(WithoutStakes(m', after), o.hash), undo, o.n);
    hide Clean, Wiped, IsPruned, Unspent;
    assert Spent(c, o.n).value.0 == c.(vout := Spent(c, o.n).value.0.vout);
    ListedNorm(c, r);
  }

  lemma ListedNorm(c: Coins, r: Coins)
    requires Listed(c) && r.vout == c.vout
    ensures Norm(Some(r)) == Some(r)
  {
    hide Trimmed;
    CleanIsTrimmed(r);
  }

  /** Undoing in reverse order gives back exactly what there was, whatever inputs spend outputs of the same
      transaction, except for the coinstake marks of transactions spent completely. */
  lemma {:induction false} SpendThenUndo(m: map<Txid, Coins>, outs: seq<OutPoint>)
    requires UnspentSet(m) && SpendInputs(m, outs).Some?
    ensures var (m', undos) := SpendInputs(m, outs).value;
            && |undos| == |outs| && m'.Keys <= m.Keys
            && RestoreInputs(m', outs, undos) == WithoutStakes(m, m')
  {
    if outs == [] {
      assert WithoutStakes(m, m) == m;
    } else {
      SpendInputKeeps(m, outs[0]);
      var (m1, undo) := SpendInput(m, outs[0]).value;
      SpendThenUndo(m1, outs[1..]);
      var (m', undos) := SpendInputs(m1, outs[1..]).value;
      RestoreOne(m, outs[0], m');
      hide SpendInput, RestoreInput, WithoutStakes;
      assert ([undo] + undos)[1..] == undos;
    }
  }

  /** So the undo is complete exactly when no coinstake transaction was spent completely. */
  lemma UndoCompleteIff(m: map<Txid, Coins>, outs: seq<OutPoint>)
    requires UnspentSet(m) && SpendInputs(m, outs).Some?
    ensures var (m', undos) := SpendInputs(m, outs).value;
            |undos| == |outs| &&
            (RestoreInputs(m', outs, undos) == m <==> forall id :: id in m && m[id].fCoinStake ==> id in m')
  {
    SpendThenUndo(m, outs);
    var m' := SpendInputs(m, outs).value.0;
    var w := WithoutStakes(m, m');
    if forall id :: id in m && m[id].fCoinStake ==> id in m' {
      assert forall id :: id in m ==> w[id] == m[id];
      assert w == m;
    } else {
      var id :| id in m && m[id].fCoinStake && id !in m';
      assert w[id] != m[id];
    }
  }

  /** The mark is lost on the least input there is: a coinstake transaction whose only output is spent. */
  lemma UndoCanLoseMark(id: Txid)
    ensures var c := Coins(false, true, [TxOut(1, [])], 1, 1);
            var m, outs := map[id := c], [OutPoint(id, 0)];
            UnspentSet(m) && SpendInputs(m, outs).Some? &&
            var (m', undos) := SpendInputs(m, outs).value;
            |undos| == |outs| && RestoreInputs(m', outs, undos) == map[id := c.(fCoinStake := false)] != m
  {
    var c := Coins(false, true, [TxOut(1, [])], 1, 1);
    var m, outs := map[id := c], [OutPoint(id, 0)];
    var spent := c.vout[0 := NULL_OUT];
    assert spent == [NULL_OUT] && spent[..0] == [] && Trimmed(spent) == [];
    var r := SpendInput(m, outs[0]);
    assert r.Some? && r.value.0 == map[];
    assert outs[1..] == [] && SpendInputs(r.value.0, []) == Some((r.value.0, []));
    SpendThenUndo(m, outs);
  }
}
