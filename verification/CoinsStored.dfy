/** The caches over the stored form: what is flushed to the database can be read back from its bytes. */
module CoinsStored {
  import opened Options
  import opened Basics
  import opened Coins
  import opened VarInt
  import opened Compressor
  import opened CoinsCodec
  import C = CoinsCache

  /** Only coins with a stored form are written through modifiers, or coins with nothing left. */
  predicate WritesStorable(op: C.Op) { op.Change? && !IsPruned(op.coins) ==> StorableCoins(Cleaned(op.coins)) }

  /** Over every run of the caches from a database of coins with a stored form, whatever entry the database
      then holds is unpruned and reads back from its bytes as it was. */
  lemma DatabaseReadsBack(curve: Curve, db: map<C.Txid, Coins>, best: int, ops: seq<C.Op>, id: C.Txid, rest: Bytes)
    requires Sound(curve) && C.RunAllowed(C.Database(db, best), ops)
    requires forall k :: k in db ==> StorableCoins(db[k]) && Clean(db[k])
    requires forall i :: 0 <= i < |ops| ==> WritesStorable(ops[i])
    ensures var d := C.Bottom(C.Run(C.Database(db, best), ops).0);
            id in d ==>
              && !IsPruned(d[id])
              && Unserialized(curve, Serialized(curve, d[id]) + rest)
                 == Some((d[id].(nHeight := IntBack(d[id].nHeight), nVersion := IntBack(d[id].nVersion)), rest))
  {
    hide C.Run, C.RunAllowed, Serialized, Unserialized, Sound, IntBack, Trimmed;
    C.DatabaseKeeps(db, best, ops, StorableCoins);
    var d := C.Bottom(C.Run(C.Database(db, best), ops).0);
    if id in d {
      CoinsRoundTrip(curve, d[id], rest);
      CleanIsTrimmed(d[id]);
    }
  }
}
