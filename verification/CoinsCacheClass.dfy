/** The database view and the cache view as objects, each operation equal to its specification. */
module CoinsCacheClass {
  import opened Basics
  import opened Options
  import opened Coins
  import C = CoinsCache

  type Txid = C.Txid

  class ViewDB {
    var db: map<Txid, Coins>
    var best: int

    constructor ()
      ensures db == map[] && best == 0
    {
      db, best := map[], 0;
    }

    /** The dirty entries of a cache become one batch: erased if pruned, written otherwise. */
    method BatchWrite(mapCoins: map<Txid, C.Entry>, hashBlock: int)
      modifies this
      ensures forall id :: id in mapCoins && mapCoins[id].isDirty ==>
                && (id in db <==> !IsPruned(mapCoins[id].coins))
                && (id in db ==> db[id] == mapCoins[id].coins)
      ensures forall id :: id !in mapCoins || !mapCoins[id].isDirty ==> C.At(db, id) == old(C.At(db, id))
      ensures best == if hashBlock != 0 then hashBlock else old(best)
      ensures C.Database(db, best) == C.BatchWrite(old(C.Database(db, best)), mapCoins, hashBlock)
    {
      hide C.StoreAll;
      ghost var db0 := db;
      var todo := mapCoins.Keys;
      while todo != {}
        invariant todo <= mapCoins.Keys
        invariant best == old(best)
        invariant forall k :: C.At(db, k) == if k in todo then C.At(db0, k) else C.StoredAt(db0, mapCoins, k)
        decreases |todo|
      {
        hide IsPruned;
        NonEmpty(todo);
        var id :| id in todo;
        var entry := mapCoins[id];
        if entry.isDirty {
          var pruned := CheckPruned(entry.coins);
          if pruned {
            db := db - {id};
          } else {
            db := db[id := entry.coins];
          }
        }
        todo := todo - {id};
      }
      forall k ensures C.At(db, k) == C.At(C.StoreAll(db0, mapCoins), k) { C.StoreAllAt(db0, mapCoins, k); }
      C.SameMap(db, C.StoreAll(db0, mapCoins));
      if hashBlock != 0 {
        best := hashBlock;
      }
    }
  }

  class ViewCache {
    var cacheCoins: map<Txid, C.Entry>
    var hashBlock: int
    /** hasModifier, and the entry that the modifier points to */
    var modifier: Option<Txid>
    /** the cache this one is stacked on; null on top of the database */
    const base: ViewCache?
    const disk: ViewDB
    ghost const Repr: set<object>
    ghost const depth: nat

    /** The stack of caches ends at the database and no cache occurs in it twice. */
    ghost predicate Linked()
      decreases depth
    {
      && this in Repr
      && (base == null ==> Repr == {this, disk})
      && (base != null ==> depth > base.depth && Repr == {this} + base.Repr && this !in base.Repr && base.disk == disk && base.Linked())
    }

    ghost function Below(): C.Stack
      requires Linked()
      reads Repr
      decreases depth, 0
    {
      if base == null then C.Database(disk.db, disk.best) else base.Model()
    }

    ghost function Model(): (s: C.Stack)
      requires Linked()
      reads Repr
      ensures s.Cache?
      decreases depth, 1
    {
      C.Cache(cacheCoins, hashBlock, modifier, Below())
    }

    constructor (disk: ViewDB, base: ViewCache?)
      requires base != null ==> base.Linked() && base.disk == disk
      ensures Linked() && this.base == base && this.disk == disk
      ensures Model() == C.Cache(map[], 0, None, Below())
    {
      this.disk, this.base := disk, base;
      cacheCoins, hashBlock, modifier := map[], 0, None;
      Repr := {this} + if base == null then {disk} else base.Repr;
      depth := if base == null then 0 else base.depth + 1;
    }

    method BaseGetCoins(id: Txid) returns (r: Option<Coins>)
      requires Linked()
      modifies if base == null then {} else base.Repr
      ensures (Below(), r) == C.GetCoins(old(Below()), id)
      ensures cacheCoins == old(cacheCoins) && hashBlock == old(hashBlock) && modifier == old(modifier)
      decreases depth, 0
    {
      if base == null {
        r := if id in disk.db then Some(disk.db[id]) else None;
      } else {
        r := base.GetCoins(id);
      }
    }

    method FetchCoins(id: Txid) returns (found: bool)
      requires Linked()
      modifies Repr
      ensures Model() == C.Fetch(old(Model()), id)
      ensures found == (id in cacheCoins)
      decreases depth, 1
    {
      if id in cacheCoins { return true; }
      var tmp := BaseGetCoins(id);
      if tmp.None? { return false; }
      var entry := C.Entry(tmp.value, false, false);
      var pruned := CheckPruned(entry.coins);
      if pruned {
        entry := entry.(isFresh := true);
      }
      cacheCoins := cacheCoins[id := entry];
      return true;
    }

    method GetCoins(id: Txid) returns (r: Option<Coins>)
      requires Linked()
      modifies Repr
      ensures (Model(), r) == C.GetCoins(old(Model()), id)
      decreases depth, 2
    {
      var found := FetchCoins(id);
      r := if found then Some(cacheCoins[id].coins) else None;
    }

    method HaveCoins(id: Txid) returns (have: bool)
      requires Linked()
      modifies Repr
      ensures (Model(), have) == C.HaveCoins(old(Model()), id)
    {
      var found := FetchCoins(id);
      have := found && |cacheCoins[id].coins.vout| != 0;
    }

    method ModifyCoins(id: Txid)
      requires Linked() && modifier == None
      modifies Repr
      ensures Model() == C.ModifyCoins(old(Model()), id)
    {
      hide C.GetCoins, IsPruned;
      if id !in cacheCoins {
        var found := BaseGetCoins(id);
        var entry := C.Entry(EMPTY, false, false);
        if found.None? {
          entry := entry.(isFresh := true);
        } else {
          entry := entry.(coins := found.value);
          var pruned := CheckPruned(entry.coins);
          if pruned { entry := entry.(isFresh := true); }
        }
        cacheCoins := cacheCoins[id := entry];
      }
      cacheCoins := cacheCoins[id := cacheCoins[id].(isDirty := true)];
      modifier := Some(id);
    }

    /** An assignment through the modifier. */
    method Assign(c: Coins)
      requires Linked() && modifier.Some? && modifier.value in cacheCoins
      modifies this
      ensures Model() == C.Assign(old(Model()), c)
    {
      var id := modifier.value;
      cacheCoins := cacheCoins[id := cacheCoins[id].(coins := c)];
    }

    /** The destructor of the modifier. */
    method EndModifier()
      requires Linked() && modifier.Some? && modifier.value in cacheCoins
      modifies this
      ensures Model() == C.Close(old(Model()))
    {
      var id := modifier.value;
      modifier := None;
      var vout := Cleanup(cacheCoins[id].coins.vout);
      cacheCoins := cacheCoins[id := cacheCoins[id].(coins := cacheCoins[id].coins.(vout := vout))];
      var pruned := CheckPruned(cacheCoins[id].coins);
      if cacheCoins[id].isFresh && pruned {
        cacheCoins := cacheCoins - {id};
      }
      assert cacheCoins == C.Close(old(Model())).cacheCoins;
    }

    /** The source's assert on FRESH is the assert below; callers establish it with FlushAccepted. */
    method BatchWrite(mapCoins: map<Txid, C.Entry>, hashBlockIn: int)
      requires Linked() && modifier == None
      requires forall id :: id in mapCoins ==> C.Acceptable(Model(), mapCoins[id], id)
      modifies this
      ensures Model() == C.BatchWrite(old(Model()), mapCoins, hashBlockIn)
    {
      hide C.WriteAll;
      ghost var ours := cacheCoins;
      ghost var model := Model();
      var todo := mapCoins.Keys;
      while todo != {}
        invariant todo <= mapCoins.Keys && modifier == None
        invariant forall k :: C.At(cacheCoins, k) == if k in todo then C.At(ours, k) else C.WrittenAt(ours, mapCoins, k)
        decreases |todo|
      {
        hide IsPruned;
        NonEmpty(todo);
        var id :| id in todo;
        var theirs := mapCoins[id];
        assert C.At(cacheCoins, id) == C.At(ours, id);
        if theirs.isDirty {
          var pruned := CheckPruned(theirs.coins);
          if id !in cacheCoins {
            if !pruned {
              assert C.Acceptable(model, theirs, id);
              assert theirs.isFresh;
              cacheCoins := cacheCoins[id := C.Entry(theirs.coins, true, true)];
            }
          } else if cacheCoins[id].isFresh && pruned {
            cacheCoins := cacheCoins - {id};
          } else {
            cacheCoins := cacheCoins[id := cacheCoins[id].(coins := theirs.coins, isDirty := true)];
          }
        }
        todo := todo - {id};
      }
      forall k ensures C.At(cacheCoins, k) == C.At(C.WriteAll(ours, mapCoins), k) { C.WriteAllAt(ours, mapCoins, k); }
      C.SameMap(cacheCoins, C.WriteAll(ours, mapCoins));
      hashBlock := hashBlockIn;
    }

    method Flush()
      requires Linked() && C.Valid(Model()) && modifier == None
      modifies Repr
      ensures Model() == C.Flush(old(Model()))
      ensures C.Valid(Model()) && forall id :: C.View(Below(), id) == C.View(Model(), id) == C.View(old(Model()), id)
    {
      hide C.Valid, C.View, C.BatchWrite;
      C.FlushKeeps(Model());
      forall id | id in cacheCoins ensures C.Acceptable(Below(), cacheCoins[id], id) { C.FlushAccepted(Model(), id); }
      if base == null {
        disk.BatchWrite(cacheCoins, hashBlock);
      } else {
        C.BaseClosed(Model());
        assert Below() == base.Model() && base.modifier == None;
        base.BatchWrite(cacheCoins, hashBlock);
      }
      cacheCoins := map[];
    }

    method GetBestBlock() returns (best: int)
      requires Linked()
      modifies Repr
      ensures (Model(), best) == C.GetBestBlock(old(Model()))
      decreases depth
    {
      if hashBlock == 0 {
        if base == null {
          hashBlock := disk.best;
        } else {
          var b := base.GetBestBlock();
          hashBlock := b;
        }
      }
      return hashBlock;
    }

    method SetBestBlock(hash: int)
      requires Linked()
      modifies this
      ensures Model() == C.Cache(old(cacheCoins), hash, old(modifier), old(Below()))
    {
      hashBlock := hash;
    }
  }
}
