/** The router and the store, driven by overlapping API calls: each call is an edit under the router lock
    and, at some later moment, a save under the store lock. Whatever order edits and saves come in, the
    objects are in a reachable state of `RuleSystem`, so its results are about them. */
module RuleCalls {
  import opened MeshTypes
  import opened RuleList
  import opened RuleStore
  import opened Registry
  import opened Router
  import Sys = RuleSystem

  lemma RemovalIsReached(s: Sys.State, id: string)
    requires Sys.Reachable(s) && s.up
    ensures Sys.Apply(s, Sys.RemoveRule(id)) == if HasId(s.mem, id) then Sys.Edit(s, RemoveFirst(s.mem, id)) else s
    ensures !HasId(s.mem, id) ==> RemoveFirst(s.mem, id) == s.mem
    ensures Sys.Reachable(Sys.Apply(s, Sys.RemoveRule(id)))
  {
    Sys.ReachNext(s, Sys.RemoveRule(id));
    if IndexOf(s.mem, id).Some? {
      assert s.mem[IndexOf(s.mem, id).value] in s.mem;
    }
  }

  class RuleCalls {
    const router: Router
    const store: Store
    /** The state of the system, and the copies that the calls still have to save. */
    ghost var model: Sys.State
    ghost var copies: map<nat, array<RoutingRule>>

    ghost predicate Valid()
      reads this, router, router.data, store.disk, copies.Values
    {
      Consistent() && model.mem == router.Rules()
    }

    /** All of it but for the list in memory, which an edit is about to change. */
    ghost predicate Consistent()
      reads this, router, store.disk, copies.Values
    {
      && router.store == store && router.Valid() && store.disk.Valid() && Sys.Reachable(model)
      && model.up && model.lock.None? && model.files == store.disk.files
      && forall i: nat | Sys.IsWaiting(model, i) ::
           i in copies && copies[i] in router.issued && copies[i][..] == model.ops[i].list
    }

    /** A start of the program on the disk that an earlier run left behind. */
    constructor (registry: Registry, store: Store, readable: bool, ghost left: Sys.State)
      requires store.disk.Valid() && Sys.Reachable(left) && !left.up && left.files == store.disk.files
      ensures Valid() && model == Sys.Apply(left, Sys.Restart(readable))
    {
      router := new Router(registry, store, readable);
      this.store := store;
      model, copies := Sys.Apply(left, Sys.Restart(readable)), map[];
      new;
      Sys.ReachableInv(left);
      Sys.ReachNext(left, Sys.Restart(readable));
    }

    /** A call has edited the list, and has a copy of it to save. */
    ghost method Enter(copy: array<RoutingRule>)
      requires Consistent() && Sys.Reachable(Sys.Edit(model, router.Rules()))
      requires copy in router.issued && copy[..] == router.Rules()
      modifies this`model, this`copies
      ensures Valid() && model == Sys.Edit(old(model), router.Rules())
      ensures var op := |old(model).ops|; Sys.IsWaiting(model, op) && op in copies && copies[op] == copy
    {
      copies := copies[|model.ops| := copy];
      model := Sys.Edit(model, router.Rules());
    }

    /** The first half of an addition; `copy` is what the second half saves. */
    method BeginAdd(rule: RoutingRule, freshId: string) returns (copy: array<RoutingRule>, ghost op: nat)
      requires Valid() && ValidRule(rule)
      modifies this, router, router.data
      ensures Valid() && model == Sys.Apply(old(model), Sys.AddRule(rule, freshId))
      ensures op == |old(model).ops| && Sys.IsWaiting(model, op) && op in copies && copies[op] == copy
    {
      op := |model.ops|;
      Sys.ReachNext(model, Sys.AddRule(rule, freshId));
      copy := router.AddUnderLock(rule.(id := freshId));
      Enter(copy);
    }

    /** The first half of a removal; null if there is no such rule. */
    method BeginRemove(id: string) returns (copy: array?<RoutingRule>, ghost op: nat)
      requires Valid()
      modifies this, router, router.data
      ensures Valid() && model == Sys.Apply(old(model), Sys.RemoveRule(id))
      ensures copy == null <==> !HasId(old(model).mem, id)
      ensures copy != null ==>
                op == |old(model).ops| && Sys.IsWaiting(model, op) && op in copies && copies[op] == copy
    {
      op := |model.ops|;
      RemovalIsReached(model, id);
      copy := router.RemoveUnderLock(id);
      if copy != null {
        Enter(copy);
      }
    }

    /** The second half of either. It succeeds exactly when the system acknowledges the call. */
    method Save(copy: array<RoutingRule>, ghost op: nat, io: SaveIo) returns (err: Option<SaveError>)
      requires Valid() && Sys.IsWaiting(model, op) && copies[op] == copy
      modifies this`model, store.disk
      ensures Valid() && err == SaveFailure(io)
      ensures exists actions :: Sys.OnlySaves(actions) && Sys.ExecFrom(old(model), actions) == Some(model)
      ensures model.mem == old(model).mem && |model.ops| == |old(model).ops|
      ensures model.ops[op].pc == Sys.Returned(err.None?)
      ensures forall j :: 0 <= j < |model.ops| && j != op ==> model.ops[j] == old(model).ops[j]
    {
      ghost var trace;
      err, trace := store.SaveRules(copy[..], io);
      Sys.ReachableInv(model);
      ghost var actions, t := Sys.RecordedSaveIsASchedule(model, op, io.stamp, trace);
      Sys.ReachRun(model, actions);
      model := t;
    }
  }
}
