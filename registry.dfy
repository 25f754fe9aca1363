/** The read side of the handle registry `vis.objects`, a table keyed by
    native address alone whose values are handles.  Its updates
    (`obj_new`, `obj_del`) are methods of `Session.Vis`. */
module Registry {
  import opened Native
  import opened Lua

  type Objects = map<Addr, Handle>

  /** The Lua error `luaL_checkudata` raises when a userdata does not
      carry the metatable of the expected kind. */
  datatype LuaError = TypeError(expected: Kind)

  /** The result of a call into the binding: a value, or a Lua error that
      aborts the calling script. */
  datatype Outcome<T> = Ok(value: T) | Raise(error: LuaError)

  /** What `obj_get` finds: nothing, the handle, or an entry of the other
      kind (on which it raises). */
  datatype Lookup = Absent | Found(h: Handle) | WrongKind

  /** The registry's invariant: each entry is keyed by the address its
      handle wraps, and (as the host closes before it frees) wraps a live
      native object of the entry's kind. */
  predicate Coherent(objects: Objects, heap: Heap) {
    forall a :: a in objects ==>
      objects[a].addr == a && a in heap && KindOf(heap[a]) == objects[a].kind
  }

  /** A handle is live while its address is registered under its own
      kind.  The entry need not be this very handle: the check compares
      addresses and kinds only. */
  predicate Live(objects: Objects, h: Handle) {
    h.addr in objects && objects[h.addr].kind == h.kind
  }

  /** `obj_get`: the registered handle for `addr` if it has kind `kind`. */
  function ObjGet(objects: Objects, addr: Addr, kind: Kind): (r: Lookup)
    ensures r.Absent? <==> addr !in objects
    ensures r.Found? <==> addr in objects && objects[addr].kind == kind
    ensures r.Found? ==> r.h == objects[addr]
  {
    if addr !in objects then Absent
    else if objects[addr].kind == kind then Found(objects[addr])
    else WrongKind
  }

  /** `obj_check`: the native address behind `h` if `h` is live, NULL if
      it is stale, and an error if `h` is not a `kind` handle or its
      address is now registered under the other kind. */
  function ObjCheck(objects: Objects, h: Handle, kind: Kind): (r: Outcome<Addr>)
    ensures r == Ok(h.addr) <==> h.kind == kind && Live(objects, h)
    ensures r == Ok(NULL) <==> h.kind == kind && h.addr !in objects
    ensures r.Raise? <==> h.kind != kind || (h.addr in objects && objects[h.addr].kind != kind)
    ensures r.Raise? ==> r.error == TypeError(kind)
  {
    if h.kind != kind then Raise(TypeError(kind))
    else match ObjGet(objects, h.addr, kind)
      case Absent => Ok(NULL)
      case WrongKind => Raise(TypeError(kind))
      case Found(_) => Ok(h.addr as Addr)
  }

  /** `obj_arg_get`: argument `h` must be a `kind` handle; then the
      registry's handle for its address, if any. */
  function ObjArgGet(objects: Objects, h: Handle, kind: Kind): (r: Outcome<Option<Handle>>)
    ensures r.Raise? <==> h.kind != kind || (h.addr in objects && objects[h.addr].kind != kind)
    ensures r == Ok(None) <==> h.kind == kind && h.addr !in objects
    ensures r.Ok? && r.value.Some? ==> r.value.value == objects[h.addr] && Live(objects, h)
  {
    if h.kind != kind then Raise(TypeError(kind))
    else match ObjGet(objects, h.addr, kind)
      case Absent => Ok(None)
      case WrongKind => Raise(TypeError(kind))
      case Found(g) => Ok(Some(g))
  }

  /** A stale handle comes back to life when a new object of its kind is
      registered at its address: liveness is decided by address and kind,
      not by handle identity. */
  lemma StaleHandleRevives(objects: Objects, h: Handle, g: Handle)
    requires h != g && g.addr == h.addr && g.kind == h.kind
    requires h.addr in objects && objects[h.addr] == g
    ensures ObjCheck(objects, h, h.kind) == Ok(h.addr)
  {
  }

  /** A stale handle whose address is now registered under the other kind
      raises instead of reading as stale. */
  lemma StaleHandleOnReusedAddressRaises(objects: Objects, h: Handle)
    requires h.addr in objects && objects[h.addr].kind != h.kind
    ensures ObjCheck(objects, h, h.kind) == Raise(TypeError(h.kind))
  {
  }
}
