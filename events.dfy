/** The lifecycle bridge: the host's window-open, window-close and
    file-close notifications call an optional script callback from
    `vis.events`, and the close notifications then drop the object's
    registry entry whatever the callback did. */
module Events {
  import opened Native
  import opened Lua
  import opened Registry
  import opened Session

  /** One thing a script callback does that the binding sees: assign a
      field on a handle it holds (through `__newindex`), assign a field on
      the handle it was called with, or obtain the handle of a native
      object (through `obj_new`, as the iterators and `win.file` do). */
  datatype Action =
    | Assign(target: Handle, key: Key, value: Value)
    | AssignArg(key: Key, value: Value)
    | Proxy(addr: Addr, kind: Kind)

  /** A script callback as seen from the bridge: the actions it performs,
      and whether it then raises an error. */
  datatype Callback = Callback(actions: seq<Action>, raises: bool)

  /** The handles other than its argument whose extension stores a
      callback may write. */
  function Targets(actions: seq<Action>): set<Handle> {
    set i | 0 <= i < |actions| && actions[i].Assign? :: actions[i].target
  }

  /** Whether the callback asks for a handle to `a`. */
  predicate Proxies(actions: seq<Action>, a: Addr) {
    exists i :: 0 <= i < |actions| && actions[i].Proxy? && actions[i].addr == a
  }

  /** A script only reaches native objects the host has handed out: each
      address it proxies is NULL or a live object of the requested kind. */
  predicate Reachable(heap: Heap, actions: seq<Action>) {
    forall i :: 0 <= i < |actions| && actions[i].Proxy? ==>
      actions[i].addr == NULL || (actions[i].addr in heap && KindOf(heap[actions[i].addr]) == actions[i].kind)
  }

  /** The extension store of the callback's argument `arg` after
      `action`, starting from `s`, when a write to it takes effect. */
  function ArgWrite(action: Action, arg: Handle, s: Store): Store {
    match action
    case AssignArg(k, v) => StoreSet(s, k, v)
    case Assign(t, k, v) => if t == arg then StoreSet(s, k, v) else s
    case Proxy(_, _) => s
  }

  /** The same after a sequence of actions. */
  function ArgWrites(actions: seq<Action>, arg: Handle, s: Store): Store
    decreases |actions|
  {
    if actions == [] then s
    else ArgWrite(actions[|actions| - 1], arg, ArgWrites(actions[..|actions| - 1], arg, s))
  }

  /** Running one more action extends the writes and the handle requests
      of a prefix. */
  lemma PrefixStep(actions: seq<Action>, i: nat, arg: Handle, s: Store)
    requires i < |actions|
    ensures ArgWrites(actions[..i + 1], arg, s) == ArgWrite(actions[i], arg, ArgWrites(actions[..i], arg, s))
    ensures forall a :: Proxies(actions[..i], a) ==> Proxies(actions[..i + 1], a)
    ensures actions[i].Proxy? ==> Proxies(actions[..i + 1], actions[i].addr)
    ensures actions[..i + 1][..i] == actions[..i] && actions[..i + 1][i] == actions[i]
  {
    assert actions[..i + 1][..i] == actions[..i];
    assert actions[..i + 1][i] == actions[i];
  }

  /** A handle requested by a prefix is requested by the whole callback. */
  lemma ProxiesPrefix(actions: seq<Action>, i: nat, a: Addr)
    requires i <= |actions| && Proxies(actions[..i], a)
    ensures Proxies(actions, a)
  {
    var j :| 0 <= j < i && actions[..i][j].Proxy? && actions[..i][j].addr == a;
    assert actions[j] == actions[..i][j];
  }

  /** Every non-NULL address the actions `done` asked for is registered
      in `now`. */
  ghost predicate ProxiedRegistered(now: Objects, done: seq<Action>) {
    forall a :: Proxies(done, a) && a != NULL ==> a in now
  }

  /** Whether handle `t` was live once the actions `done` had run, judged
      from the registry `now` of any later moment of the same callback:
      entries are never removed during a callback, so an address that was
      registered then (at the start, registry `start`, or by one of the
      requests in `done`) has kept its entry. */
  predicate LiveAfter(start: Objects, now: Objects, done: seq<Action>, t: Handle) {
    (t.addr in start || Proxies(done, t.addr)) && Live(now, t)
  }

  /** Whether action `i` is a field write that raised when it ran: its
      target's address was registered by then, and under the other kind. */
  predicate RaisedAt(start: Objects, now: Objects, actions: seq<Action>, i: nat) {
    && i < |actions| && actions[i].Assign?
    && (actions[i].target.addr in start || Proxies(actions[..i], actions[i].target.addr))
    && ObjCheck(now, actions[i].target, actions[i].target.kind).Raise?
  }

  /** `lua_pcall` semantics: the callback ran exactly its first `ran`
      actions, that is, none of them was a field write that raised, and
      when it stopped early, action `ran` was one.  Nothing else stops a
      callback early. */
  predicate RanUntilRaise(start: Objects, now: Objects, actions: seq<Action>, ran: nat) {
    && ran <= |actions|
    && (forall i :: 0 <= i < ran ==> !RaisedAt(start, now, actions, i))
    && (ran < |actions| ==> RaisedAt(start, now, actions, ran))
  }

  /** The extension store of handle `t`, other than the callback's
      argument, after the actions `done`, starting from `s`: each write to
      `t` takes effect exactly when `t` was live at that moment. */
  function TargetWrites(start: Objects, now: Objects, done: seq<Action>, t: Handle, s: Store): Store
    decreases |done|
  {
    if done == [] then s
    else
      var prefix := done[..|done| - 1];
      var last := done[|done| - 1];
      var prev := TargetWrites(start, now, prefix, t, s);
      if last.Assign? && last.target == t && LiveAfter(start, now, prefix, t)
      then StoreSet(prev, last.key, last.value)
      else prev
  }

  /** A registry that only gained entries gives the same answers about the
      past: what was live, and what each write did. */
  lemma {:induction false} TargetWritesStable(start: Objects, now: Objects, later: Objects, done: seq<Action>, t: Handle, s: Store)
    requires forall a :: a in now ==> a in later && later[a] == now[a]
    requires forall a :: a in start ==> a in now
    requires ProxiedRegistered(now, done)
    ensures TargetWrites(start, later, done, t, s) == TargetWrites(start, now, done, t, s)
    decreases |done|
  {
    if done != [] {
      var prefix := done[..|done| - 1];
      forall a | Proxies(prefix, a) && a != NULL
        ensures a in now
      {
        ProxiesPrefix(done, |done| - 1, a);
      }
      TargetWritesStable(start, now, later, prefix, t, s);
      assert LiveAfter(start, later, prefix, t) == LiveAfter(start, now, prefix, t);
    }
  }

  /** A handle request registers its object, so the requested addresses
      stay registered action after action. */
  lemma ProxiedStep(before: Objects, after: Objects, actions: seq<Action>, i: nat)
    requires i < |actions|
    requires forall a :: a in before ==> a in after
    requires ProxiedRegistered(before, actions[..i])
    requires actions[i].Proxy? && actions[i].addr != NULL ==> actions[i].addr in after
    ensures ProxiedRegistered(after, actions[..i + 1])
  {
    forall a | Proxies(actions[..i + 1], a) && a != NULL
      ensures a in after
    {
      var j :| 0 <= j < i + 1 && actions[..i + 1][j].Proxy? && actions[..i + 1][j].addr == a;
      if j < i {
        assert actions[..i][j] == actions[..i + 1][j];
      }
    }
  }

  /** One more action adds at most one write to `t`'s store. */
  lemma TargetWritesStep(start: Objects, now: Objects, actions: seq<Action>, i: nat, t: Handle, s: Store)
    requires i < |actions|
    ensures TargetWrites(start, now, actions[..i + 1], t, s)
         == if actions[i].Assign? && actions[i].target == t && LiveAfter(start, now, actions[..i], t)
            then StoreSet(TargetWrites(start, now, actions[..i], t, s), actions[i].key, actions[i].value)
            else TargetWrites(start, now, actions[..i], t, s)
  {
    assert actions[..i + 1][..i] == actions[..i];
    assert actions[..i + 1][i] == actions[i];
  }

  /** The same for which of the first `ran` actions raised. */
  lemma RaisedStable(start: Objects, now: Objects, later: Objects, actions: seq<Action>, ran: nat)
    requires ran <= |actions|
    requires forall a :: a in now ==> a in later && later[a] == now[a]
    requires forall a :: a in start ==> a in now
    requires ProxiedRegistered(now, actions[..ran])
    ensures forall i :: 0 <= i < ran ==> (RaisedAt(start, later, actions, i) <==> RaisedAt(start, now, actions, i))
  {
    forall i | 0 <= i < ran
      ensures RaisedAt(start, later, actions, i) <==> RaisedAt(start, now, actions, i)
    {
      if actions[i].Assign? {
        var t := actions[i].target;
        if Proxies(actions[..i], t.addr) {
          assert actions[..ran][..i] == actions[..i];
          ProxiesPrefix(actions[..ran], i, t.addr);
        }
      }
    }
  }

  /** The handle registered for `a`, if any, as a frame. */
  function Registered(objects: Objects, a: Addr): set<Handle> {
    if a in objects then {objects[a]} else {}
  }

  /** One action of a callback with argument `arg`, a registered handle.
      A field write goes through `__newindex`: it raises exactly when its
      target's `obj_check` raises (and then nothing changes), sets the key
      on a live target and does nothing on a stale one, and never touches
      the registry.  A write to the argument and a handle request never
      raise. */
  method Perform(vis: Vis, arg: Handle, action: Action) returns (raised: bool)
    requires vis.Valid() && Reachable(vis.heap, [action])
    requires arg.addr in vis.objects && vis.objects[arg.addr] == arg
    modifies vis`objects, Targets([action]), arg
    ensures vis.Valid()
    ensures arg.addr in vis.objects && vis.objects[arg.addr] == arg
    ensures forall a :: a in old(vis.objects) ==> a in vis.objects && vis.objects[a] == old(vis.objects)[a]
    ensures forall a :: a in vis.objects ==> a in old(vis.objects) || (action.Proxy? && action.addr == a)
    ensures raised ==> action.Assign? && arg.store == old(arg.store)
    ensures !raised ==> arg.store == ArgWrite(action, arg, old(arg.store))
    ensures raised <==> action.Assign? && ObjCheck(vis.objects, action.target, action.target.kind).Raise?
    ensures action.Assign? ==> vis.objects == old(vis.objects)
    ensures action.Assign? ==>
      action.target.store == if Live(vis.objects, action.target)
                             then StoreSet(old(action.target.store), action.key, action.value)
                             else old(action.target.store)
    ensures action.Proxy? && action.addr != NULL ==> action.addr in vis.objects
  {
    match action {
      case Assign(target, key, value) =>
        assert action == [action][0];
        var r := vis.NewIndex(target.kind, target, key, value);
        raised := r.Raise?;
      case AssignArg(key, value) =>
        var r := vis.NewIndex(arg.kind, arg, key, value);
        raised := r.Raise?;
      case Proxy(addr, kind) =>
        assert action == [action][0];
        var p := vis.ObjNew(addr, kind);
        raised := p.Raised?;
    }
  }

  /** The registry during a callback that has run the actions `done`
      from registry `start`: every entry of `start` is kept, every added
      entry was asked for, and every non-NULL address asked for is
      registered. */
  ghost predicate Grown(start: Objects, now: Objects, done: seq<Action>) {
    && (forall a :: a in start ==> a in now && now[a] == start[a])
    && (forall a :: a in now ==> a in start || Proxies(done, a))
    && ProxiedRegistered(now, done)
  }

  /** None of the first `ran` actions raised. */
  ghost predicate NoRaiseBefore(start: Objects, now: Objects, actions: seq<Action>, ran: nat) {
    forall i :: 0 <= i < ran ==> !RaisedAt(start, now, actions, i)
  }

  /** Every handle of `targets` other than `arg` holds the writes of
      `done` that took effect, over its store `init[t]` at the start. */
  ghost predicate StoresFollow(targets: set<Handle>, arg: Handle, start: Objects, now: Objects,
                               done: seq<Action>, init: map<Handle, Store>)
    reads targets
  {
    forall t :: t in targets && t != arg ==> t in init && t.store == TargetWrites(start, now, done, t, init[t])
  }

  /** The registry side of one action that did not raise: the registry
      only grew, by the address the action asked a handle for, and no
      action so far raised against the grown registry. */
  lemma RegistryStep(start: Objects, before: Objects, after: Objects, actions: seq<Action>, ran: nat)
    requires ran < |actions|
    requires Grown(start, before, actions[..ran]) && NoRaiseBefore(start, before, actions, ran)
    requires forall a :: a in before ==> a in after && after[a] == before[a]
    requires forall a :: a in after ==> a in before || (actions[ran].Proxy? && actions[ran].addr == a)
    requires actions[ran].Proxy? && actions[ran].addr != NULL ==> actions[ran].addr in after
    requires actions[ran].Assign? ==>
      after == before && !ObjCheck(after, actions[ran].target, actions[ran].target.kind).Raise?
    ensures Grown(start, after, actions[..ran + 1]) && NoRaiseBefore(start, after, actions, ran + 1)
  {
    ProxiedStep(before, after, actions, ran);
    RaisedStable(start, before, after, actions, ran);
  }

  /** How far `RunCallback` has got: the first `ran` actions ran without a
      raise from registry `start`, argument store `arg0` and target stores
      `init`, and when `failed` action `ran` raised. */
  ghost predicate Progress(vis: Vis, arg: Handle, cb: Callback, ran: nat, failed: bool,
                           start: Objects, init: map<Handle, Store>, arg0: Store)
    reads vis, arg, Targets(cb.actions)
  {
    && ran <= |cb.actions|
    && vis.Valid()
    && arg.addr in vis.objects && vis.objects[arg.addr] == arg
    && arg.store == ArgWrites(cb.actions[..ran], arg, arg0)
    && Grown(start, vis.objects, cb.actions[..ran])
    && NoRaiseBefore(start, vis.objects, cb.actions, ran)
    && (failed ==> RaisedAt(start, vis.objects, cb.actions, ran))
    && StoresFollow(Targets(cb.actions), arg, start, vis.objects, cb.actions[..ran], init)
  }

  /** One turn of `RunCallback`'s loop: perform action `ran`.  Either it
      raises, and the callback stops there, or one more action took effect. */
  method RunStep(vis: Vis, arg: Handle, cb: Callback, ran: nat,
                 ghost start: Objects, ghost init: map<Handle, Store>, ghost arg0: Store)
      returns (raised: bool)
    requires ran < |cb.actions| && Reachable(vis.heap, cb.actions)
    requires Progress(vis, arg, cb, ran, false, start, init, arg0)
    modifies vis`objects, Targets(cb.actions), arg
    ensures raised ==> Progress(vis, arg, cb, ran, true, start, init, arg0)
    ensures !raised ==> Progress(vis, arg, cb, ran + 1, false, start, init, arg0)
  {
    var action := cb.actions[ran];
    assert Targets([action]) <= Targets(cb.actions);
    PrefixStep(cb.actions, ran, arg, arg0);
    raised := Perform(vis, arg, action);
    if !raised {
      RegistryStep(start, old(vis.objects), vis.objects, cb.actions, ran);
      forall t | t in Targets(cb.actions) && t != arg
        ensures t in init && t.store == TargetWrites(start, vis.objects, cb.actions[..ran + 1], t, init[t])
      {
        TargetWritesStable(start, old(vis.objects), vis.objects, cb.actions[..ran], t, init[t]);
        TargetWritesStep(start, vis.objects, cb.actions, ran, t, init[t]);
      }
    }
  }

  /** `RunCallback`'s loop: perform the actions in order until one raises
      or all are done. */
  method RunActions(vis: Vis, arg: Handle, cb: Callback,
                    ghost start: Objects, ghost init: map<Handle, Store>, ghost arg0: Store)
      returns (ran: nat, failed: bool)
    requires Reachable(vis.heap, cb.actions)
    requires Progress(vis, arg, cb, 0, false, start, init, arg0)
    modifies vis`objects, Targets(cb.actions), arg
    ensures Progress(vis, arg, cb, ran, failed, start, init, arg0)
    ensures ran == |cb.actions| || failed
  {
    ran := 0;
    failed := false;
    while ran < |cb.actions| && !failed
      invariant Progress(vis, arg, cb, ran, failed, start, init, arg0)
      decreases |cb.actions| - ran, if failed then 0 else 1
    {
      var raised := RunStep(vis, arg, cb, ran, start, init, arg0);
      if raised {
        failed := true;
      } else {
        ran := ran + 1;
      }
    }
  }

  /** `lua_pcall` of a callback with argument `arg`, a registered handle:
      run its actions until one raises or all are done.  `ran` counts the
      actions that took effect; it stops at the first field write that
      raises, and the call failed when one raised or the callback raised
      at the end.  The argument stays registered, so every write to it
      takes effect; every other handle's store holds the writes made while
      it was live; a callback that assigns only to its argument runs to
      the end.  No registry entry is removed, exactly the non-NULL
      addresses asked for are added. */
  method RunCallback(vis: Vis, arg: Handle, cb: Callback) returns (ran: nat, failed: bool)
    requires vis.Valid() && Reachable(vis.heap, cb.actions)
    requires arg.addr in vis.objects && vis.objects[arg.addr] == arg
    modifies vis`objects, Targets(cb.actions), arg
    ensures vis.Valid()
    ensures arg.addr in vis.objects && vis.objects[arg.addr] == arg
    ensures forall a :: a in old(vis.objects) ==> a in vis.objects && vis.objects[a] == old(vis.objects)[a]
    ensures forall a :: a in vis.objects ==> a in old(vis.objects) || Proxies(cb.actions, a)
    ensures ran <= |cb.actions|
    ensures failed <==> ran < |cb.actions| || cb.raises
    ensures arg.store == ArgWrites(cb.actions[..ran], arg, old(arg.store))
    ensures RanUntilRaise(old(vis.objects), vis.objects, cb.actions, ran)
    ensures ProxiedRegistered(vis.objects, cb.actions[..ran])
    ensures forall t :: t in Targets(cb.actions) && t != arg ==>
      t.store == TargetWrites(old(vis.objects), vis.objects, cb.actions[..ran], t, old(t.store))
    ensures (forall i :: 0 <= i < |cb.actions| ==> !cb.actions[i].Assign?) ==> ran == |cb.actions|
  {
    ghost var start := vis.objects;
    ghost var init := map t | t in Targets(cb.actions) :: t.store;
    ran, failed := RunActions(vis, arg, cb, start, init, old(arg.store));
    forall a | a in vis.objects && a !in old(vis.objects)
      ensures Proxies(cb.actions, a)
    {
      ProxiesPrefix(cb.actions, ran, a);
    }
    failed := failed || cb.raises;
  }

  /** What the three notifications share when a callback exists: get or
      create the object's handle (`obj_new`) and call the callback with it.
      The handle is registered throughout, so all the callback's writes to
      it take effect. */
  method Notify(vis: Vis, addr: Ptr, kind: Kind, cb: Callback) returns (arg: Handle, ran: nat)
    requires vis.Valid() && addr in vis.heap && KindOf(vis.heap[addr]) == kind
    requires Reachable(vis.heap, cb.actions)
    modifies vis`objects, Targets(cb.actions), Registered(vis.objects, addr)
    ensures vis.Valid()
    ensures arg.addr == addr && arg.kind == kind && addr in vis.objects && vis.objects[addr] == arg
    ensures addr in old(vis.objects) ==> arg == old(vis.objects)[addr]
    ensures addr !in old(vis.objects) ==> fresh(arg)
    ensures forall a :: a in old(vis.objects) ==> a in vis.objects && vis.objects[a] == old(vis.objects)[a]
    ensures forall a :: a in vis.objects ==> a in old(vis.objects) || a == addr || Proxies(cb.actions, a)
    ensures ran <= |cb.actions|
    ensures arg.store == ArgWrites(cb.actions[..ran], arg,
                           if addr in old(vis.objects) then old(vis.objects[addr].store) else map[])
    ensures RanUntilRaise(old(vis.objects)[addr := arg], vis.objects, cb.actions, ran)
    ensures ProxiedRegistered(vis.objects, cb.actions[..ran])
    ensures forall t :: t in Targets(cb.actions) && t != arg ==>
      t.store == TargetWrites(old(vis.objects)[addr := arg], vis.objects, cb.actions[..ran], t, old(t.store))
    ensures (forall i :: 0 <= i < |cb.actions| ==> !cb.actions[i].Assign?) ==> ran == |cb.actions|
  {
    var p := vis.ObjNew(addr, kind);
    arg := p.h;
    assert vis.objects == old(vis.objects)[addr := arg];
    var failed;
    ran, failed := RunCallback(vis, arg, cb);
  }

  /** A close with a callback: `Notify`, then `obj_del`.  The registry the
      callback ran against is the final one with the handle put back. */
  method NotifyThenDelete(vis: Vis, addr: Ptr, kind: Kind, cb: Callback) returns (arg: Handle, ran: nat)
    requires vis.Valid() && addr in vis.heap && KindOf(vis.heap[addr]) == kind
    requires Reachable(vis.heap, cb.actions)
    modifies vis`objects, Targets(cb.actions), Registered(vis.objects, addr)
    ensures vis.Valid()
    ensures addr !in vis.objects
    ensures forall a :: a in old(vis.objects) && a != addr ==> a in vis.objects && vis.objects[a] == old(vis.objects)[a]
    ensures forall a :: a in vis.objects ==> a in old(vis.objects) || Proxies(cb.actions, a)
    ensures arg.addr == addr && arg.kind == kind && ran <= |cb.actions|
    ensures addr in old(vis.objects) ==> arg == old(vis.objects)[addr]
    ensures addr !in old(vis.objects) ==> fresh(arg)
    ensures arg.store == ArgWrites(cb.actions[..ran], arg,
                           if addr in old(vis.objects) then old(vis.objects[addr].store) else map[])
    ensures RanUntilRaise(old(vis.objects)[addr := arg], vis.objects[addr := arg], cb.actions, ran)
    ensures ProxiedRegistered(vis.objects[addr := arg], cb.actions[..ran])
    ensures forall t :: t in Targets(cb.actions) && t != arg ==>
      t.store == TargetWrites(old(vis.objects)[addr := arg], vis.objects[addr := arg], cb.actions[..ran], t, old(t.store))
    ensures (forall i :: 0 <= i < |cb.actions| ==> !cb.actions[i].Assign?) ==> ran == |cb.actions|
  {
    arg, ran := Notify(vis, addr, kind, cb);
    ghost var during := vis.objects;
    vis.ObjDel(addr);
    assert vis.objects[addr := arg] == during;
  }

  /** The shared shape of `vis_lua_file_close` and `vis_lua_win_close`:
      call the `name` callback (if any) with the object's handle, then
      unregister the object unconditionally.  `arg` is the handle the
      callback received (the registered one, or a fresh one with an empty
      store) and `ran` the count of its actions that took effect. */
  method CloseEvent(vis: Vis, addr: Ptr, kind: Kind, name: string, cb: Callback) returns (arg: Option<Handle>, ran: nat)
    requires vis.Valid() && addr in vis.heap && KindOf(vis.heap[addr]) == kind
    requires Reachable(vis.heap, cb.actions)
    modifies vis`objects, Targets(cb.actions), Registered(vis.objects, addr)
    ensures vis.Valid()
    ensures addr !in vis.objects
    ensures forall a :: a in old(vis.objects) && a != addr ==> a in vis.objects && vis.objects[a] == old(vis.objects)[a]
    ensures forall a :: a in vis.objects ==> a in old(vis.objects) || (Handler(vis.events, name) && Proxies(cb.actions, a))
    ensures Handler(vis.events, name) <==> arg.Some?
    ensures arg.Some? ==>
      && arg.value.addr == addr && arg.value.kind == kind && ran <= |cb.actions|
      && (addr in old(vis.objects) ==> arg.value == old(vis.objects)[addr])
      && (addr !in old(vis.objects) ==> fresh(arg.value))
      && arg.value.store == ArgWrites(cb.actions[..ran], arg.value,
                              if addr in old(vis.objects) then old(vis.objects[addr].store) else map[])
      && RanUntilRaise(old(vis.objects)[addr := arg.value], vis.objects[addr := arg.value], cb.actions, ran)
      && ProxiedRegistered(vis.objects[addr := arg.value], cb.actions[..ran])
      && (forall t :: t in Targets(cb.actions) && t != arg.value ==>
            t.store == TargetWrites(old(vis.objects)[addr := arg.value], vis.objects[addr := arg.value],
                                    cb.actions[..ran], t, old(t.store)))
      && ((forall i :: 0 <= i < |cb.actions| ==> !cb.actions[i].Assign?) ==> ran == |cb.actions|)
    ensures arg.None? ==>
      && vis.objects == old(vis.objects) - {addr}
      && (forall t :: t in Targets(cb.actions) ==> t.store == old(t.store))
      && (forall t :: t in Registered(old(vis.objects), addr) ==> t.store == old(t.store))
  {
    arg, ran := None, 0;
    if Handler(vis.events, name) {
      var h;
      h, ran := NotifyThenDelete(vis, addr, kind, cb);
      arg := Some(h);
    } else {
      vis.ObjDel(addr);
    }
  }

  /** `vis_lua_file_close`: the `file_close` callback receives the file's
      handle while the file is still registered (so its writes to the
      handle take effect); after it returns the file has no registry
      entry, whether the callback was missing, succeeded or raised, so
      every handle to it a script kept is stale. */
  method FileClose(vis: Vis, file: Ptr, cb: Callback) returns (arg: Option<Handle>, ran: nat)
    requires vis.Valid() && file in vis.heap && vis.heap[file].File?
    requires Reachable(vis.heap, cb.actions)
    modifies vis`objects, Targets(cb.actions), Registered(vis.objects, file)
    ensures vis.Valid()
    ensures file !in vis.objects
    ensures forall a :: a in old(vis.objects) && a != file ==> a in vis.objects && vis.objects[a] == old(vis.objects)[a]
    ensures forall a :: a in vis.objects ==> a in old(vis.objects) || (Handler(vis.events, "file_close") && Proxies(cb.actions, a))
    ensures Handler(vis.events, "file_close") <==> arg.Some?
    ensures arg.Some? ==>
      && arg.value.addr == file && arg.value.kind == FileKind && ran <= |cb.actions|
      && (file in old(vis.objects) ==> arg.value == old(vis.objects)[file])
      && (file !in old(vis.objects) ==> fresh(arg.value))
      && arg.value.store == ArgWrites(cb.actions[..ran], arg.value,
                              if file in old(vis.objects) then old(vis.objects[file].store) else map[])
      && RanUntilRaise(old(vis.objects)[file := arg.value], vis.objects[file := arg.value], cb.actions, ran)
      && ProxiedRegistered(vis.objects[file := arg.value], cb.actions[..ran])
      && (forall t :: t in Targets(cb.actions) && t != arg.value ==>
            t.store == TargetWrites(old(vis.objects)[file := arg.value], vis.objects[file := arg.value],
                                    cb.actions[..ran], t, old(t.store)))
      && ((forall i :: 0 <= i < |cb.actions| ==> !cb.actions[i].Assign?) ==> ran == |cb.actions|)
    ensures arg.None? ==>
      && vis.objects == old(vis.objects) - {file}
      && (forall t :: t in Targets(cb.actions) ==> t.store == old(t.store))
      && (forall t :: t in Registered(old(vis.objects), file) ==> t.store == old(t.store))
  {
    arg, ran := CloseEvent(vis, file, FileKind, "file_close", cb);
  }

  /** `vis_lua_win_close`: as `FileClose`, with the `win_close` callback. */
  method WinClose(vis: Vis, win: Ptr, cb: Callback) returns (arg: Option<Handle>, ran: nat)
    requires vis.Valid() && win in vis.heap && vis.heap[win].Window?
    requires Reachable(vis.heap, cb.actions)
    modifies vis`objects, Targets(cb.actions), Registered(vis.objects, win)
    ensures vis.Valid()
    ensures win !in vis.objects
    ensures forall a :: a in old(vis.objects) && a != win ==> a in vis.objects && vis.objects[a] == old(vis.objects)[a]
    ensures forall a :: a in vis.objects ==> a in old(vis.objects) || (Handler(vis.events, "win_close") && Proxies(cb.actions, a))
    ensures Handler(vis.events, "win_close") <==> arg.Some?
    ensures arg.Some? ==>
      && arg.value.addr == win && arg.value.kind == WindowKind && ran <= |cb.actions|
      && (win in old(vis.objects) ==> arg.value == old(vis.objects)[win])
      && (win !in old(vis.objects) ==> fresh(arg.value))
      && arg.value.store == ArgWrites(cb.actions[..ran], arg.value,
                              if win in old(vis.objects) then old(vis.objects[win].store) else map[])
      && RanUntilRaise(old(vis.objects)[win := arg.value], vis.objects[win := arg.value], cb.actions, ran)
      && ProxiedRegistered(vis.objects[win := arg.value], cb.actions[..ran])
      && (forall t :: t in Targets(cb.actions) && t != arg.value ==>
            t.store == TargetWrites(old(vis.objects)[win := arg.value], vis.objects[win := arg.value],
                                    cb.actions[..ran], t, old(t.store)))
      && ((forall i :: 0 <= i < |cb.actions| ==> !cb.actions[i].Assign?) ==> ran == |cb.actions|)
    ensures arg.None? ==>
      && vis.objects == old(vis.objects) - {win}
      && (forall t :: t in Targets(cb.actions) ==> t.store == old(t.store))
      && (forall t :: t in Registered(old(vis.objects), win) ==> t.store == old(t.store))
  {
    arg, ran := CloseEvent(vis, win, WindowKind, "win_close", cb);
  }

  /** `vis_lua_win_open`: only when a `win_open` callback exists is the
      window's handle looked up or created and passed to it (and then it
      stays registered, holding what the callback wrote to it); nothing
      is ever unregistered. */
  method WinOpen(vis: Vis, win: Ptr, cb: Callback) returns (arg: Option<Handle>, ran: nat)
    requires vis.Valid() && win in vis.heap && vis.heap[win].Window?
    requires Reachable(vis.heap, cb.actions)
    modifies vis`objects, Targets(cb.actions), Registered(vis.objects, win)
    ensures vis.Valid()
    ensures forall a :: a in old(vis.objects) ==> a in vis.objects && vis.objects[a] == old(vis.objects)[a]
    ensures Handler(vis.events, "win_open") <==> arg.Some?
    ensures arg.Some? ==>
      && win in vis.objects && vis.objects[win] == arg.value && arg.value.kind == WindowKind
      && ran <= |cb.actions|
      && (win in old(vis.objects) ==> arg.value == old(vis.objects)[win])
      && (win !in old(vis.objects) ==> fresh(arg.value))
      && arg.value.store == ArgWrites(cb.actions[..ran], arg.value,
                              if win in old(vis.objects) then old(vis.objects[win].store) else map[])
      && RanUntilRaise(old(vis.objects)[win := arg.value], vis.objects, cb.actions, ran)
      && ProxiedRegistered(vis.objects, cb.actions[..ran])
      && (forall t :: t in Targets(cb.actions) && t != arg.value ==>
            t.store == TargetWrites(old(vis.objects)[win := arg.value], vis.objects, cb.actions[..ran], t, old(t.store)))
      && ((forall i :: 0 <= i < |cb.actions| ==> !cb.actions[i].Assign?) ==> ran == |cb.actions|)
      && forall a :: a in vis.objects ==> a in old(vis.objects) || a == win || Proxies(cb.actions, a)
    ensures arg.None? ==>
      && vis.objects == old(vis.objects)
      && (forall t :: t in Targets(cb.actions) ==> t.store == old(t.store))
      && (forall t :: t in Registered(old(vis.objects), win) ==> t.store == old(t.store))
  {
    arg, ran := None, 0;
    if Handler(vis.events, "win_open") {
      var h;
      h, ran := Notify(vis, win, WindowKind, cb);
      arg := Some(h);
    }
  }

  /** A worked instance rather than a general law: the common `win_open`
      callback, `function(win) win[k] = v end`, leaves exactly that one
      field on a fresh window's handle. */
  lemma OneFieldCallback(arg: Handle, k: Key, v: Value)
    ensures ArgWrites([AssignArg(k, v)], arg, map[]) == StoreSet(map[], k, v)
    ensures v != Nil ==> ArgWrites([AssignArg(k, v)], arg, map[]) == map[k := v]
  {
    assert [AssignArg(k, v)][..0] == [];
    assert ArgWrites([AssignArg(k, v)], arg, map[]) == ArgWrite(AssignArg(k, v), arg, map[]);
  }

  /** Two instances that document the lookup's shapes rather than a
      general law: when `vis.events` itself holds a function, the lookup
      answers every event name with it; an empty table answers none. */
  lemma EventsFunctionAnswersEveryEvent(fname: string, name: string)
    ensures Handler(EventsOther(VFunc(fname)), name)
    ensures !Handler(EventsTable(map[]), name)
  {
  }
}
