/** One scripting session: the host's native objects together with the
    script state the binding keeps for them.  The registry `vis.objects`
    and each handle's extension store are changed in place here. */
module Session {
  import opened Native
  import opened Lua
  import opened Registry
  import opened Dispatch

  /** What `obj_new` hands back. */
  datatype Proxy = Null | Got(h: Handle) | Raised(error: LuaError)

  class Vis {
    /** The host: its native objects and the heads of its file and
        window lists. */
    var heap: Heap
    var files: Addr
    var windows: Addr
    ghost var fileChain: seq<Addr>
    ghost var windowChain: seq<Addr>

    /** The script side: `registry["vis.objects"]` and `vis.events`. */
    var objects: Objects
    var events: EventsField

    ghost predicate Valid()
      reads this
    {
      && WellFormed(heap)
      && Coherent(objects, heap)
      && IsChain(heap, files, FileKind, fileChain)
      && IsChain(heap, windows, WindowKind, windowChain)
    }

    /** Session start: the registry table is created empty. */
    constructor (heap: Heap, files: Addr, windows: Addr, ghost fileChain: seq<Addr>,
                 ghost windowChain: seq<Addr>, events: EventsField)
      requires WellFormed(heap)
      requires IsChain(heap, files, FileKind, fileChain)
      requires IsChain(heap, windows, WindowKind, windowChain)
      ensures Valid()
      ensures objects == map[]
      ensures this.heap == heap && this.files == files && this.windows == windows
      ensures this.fileChain == fileChain && this.windowChain == windowChain && this.events == events
    {
      this.heap := heap;
      this.files := files;
      this.windows := windows;
      this.fileChain := fileChain;
      this.windowChain := windowChain;
      this.events := events;
      objects := map[];
    }

    /** `obj_new`: get-or-create the handle for `addr`.  NULL gives no
        handle; a hit returns the registered handle; a miss registers one
        fresh handle with an empty extension store; an entry of the other
        kind raises. */
    method ObjNew(addr: Addr, kind: Kind) returns (p: Proxy)
      modifies this`objects
      ensures addr == NULL ==> p == Null && objects == old(objects)
      ensures addr != NULL && addr in old(objects) && old(objects)[addr].kind == kind ==>
        p == Got(old(objects)[addr]) && objects == old(objects)
      ensures addr != NULL && addr in old(objects) && old(objects)[addr].kind != kind ==>
        p == Raised(TypeError(kind)) && objects == old(objects)
      ensures addr != NULL && addr !in old(objects) ==>
        && p.Got? && fresh(p.h)
        && p.h.kind == kind && p.h.addr == addr && p.h.store == map[]
        && objects == old(objects)[addr := p.h]
      ensures old(Coherent(objects, heap)) && (addr == NULL || (addr in heap && KindOf(heap[addr]) == kind)) ==>
        Coherent(objects, heap)
    {
      if addr == NULL {
        return Null;
      }
      match ObjGet(objects, addr, kind)
      case Found(h) =>
        p := Got(h);
      case WrongKind =>
        p := Raised(TypeError(kind));
      case Absent =>
        var h := new Handle(kind, addr);
        objects := objects[addr := h];
        p := Got(h);
    }

    /** `obj_del`: drop the entry for `addr`, whatever its kind; nothing
        happens if there is none. */
    method ObjDel(addr: Addr)
      modifies this`objects
      ensures objects == old(objects) - {addr}
      ensures old(Coherent(objects, heap)) ==> Coherent(objects, heap)
    {
      objects := objects - {addr};
    }

    /** `window_index`: reading `key` on window handle `h`.  Reading
        `file` proxies the window's file through `obj_new`. */
    method WindowIndex(h: Handle, key: Key) returns (r: Outcome<Value>)
      requires Valid()
      modifies this`objects
      ensures Valid()
      ensures match WindowDispatch(old(objects), heap, h, h.store, key)
        case Raise(e) => r == Raise(e) && objects == old(objects)
        case Ok(Value(v)) => r == Ok(v) && objects == old(objects)
        case Ok(FileOf(f)) =>
          && f in objects && objects[f].kind == FileKind && r == Ok(VHandle(objects[f]))
          && (f in old(objects) ==> objects == old(objects))
          && (f !in old(objects) ==> fresh(objects[f]) && objects[f].store == map[]
                                     && objects == old(objects)[f := objects[f]])
    {
      match WindowDispatch(objects, heap, h, h.store, key)
      case Raise(e) =>
        r := Raise(e);
      case Ok(Value(v)) =>
        r := Ok(v);
      case Ok(FileOf(f)) =>
        var p := ObjNew(f, FileKind);
        match p
        case Got(g) =>
          r := Ok(VHandle(g));
        case Raised(e) =>
          r := Raise(e);
        case Null =>
          r := Ok(Nil);
    }

    /** `window_newindex` / `file_newindex` (the metamethod of `kind`):
        on a live handle, set one key of that handle's extension store;
        on a stale one, do nothing.  The registry, the native objects and
        every other handle are untouched. */
    method NewIndex(kind: Kind, h: Handle, key: Key, value: Value) returns (r: Outcome<()>)
      modifies h
      ensures r.Raise? <==> ObjCheck(objects, h, kind).Raise?
      ensures ObjCheck(objects, h, kind) == Ok(h.addr) ==> h.store == StoreSet(old(h.store), key, value)
      ensures ObjCheck(objects, h, kind) != Ok(h.addr) ==> h.store == old(h.store)
    {
      match ObjCheck(objects, h, kind)
      case Raise(e) =>
        r := Raise(e);
      case Ok(a) =>
        if a != NULL {
          h.store := StoreSet(h.store, key, value);
        }
        r := Ok(());
    }

    /** `file_insert`: a live handle passes the engine's answer through;
        a stale one answers false and leaves the text alone. */
    method FileInsert(h: Handle, pos: nat, data: Bytes, e: Engine) returns (r: Outcome<bool>)
      requires Valid()
      modifies this`heap
      ensures Valid()
      ensures r.Raise? <==> ObjCheck(objects, h, FileKind).Raise?
      ensures ObjCheck(objects, h, FileKind) == Ok(NULL) ==> r == Ok(false) && heap == old(heap)
      ensures r.Raise? ==> heap == old(heap)
      ensures ObjCheck(objects, h, FileKind) == Ok(h.addr) ==>
        && old(heap)[h.addr].File?
        && var (ok, t) := e.insert(old(heap)[h.addr].text, pos, data);
           r == Ok(ok) && heap == old(heap)[h.addr := old(heap)[h.addr].(text := t)]
    {
      match ObjCheck(objects, h, FileKind)
      case Raise(err) =>
        r := Raise(err);
      case Ok(a) =>
        if a == NULL {
          r := Ok(false);
        } else {
          var (ok, t) := e.insert(heap[a].text, pos, data);
          SetText(a, t);
          r := Ok(ok);
        }
    }

    /** `file_delete`: as `FileInsert`, with the engine's delete. */
    method FileDelete(h: Handle, pos: nat, len: nat, e: Engine) returns (r: Outcome<bool>)
      requires Valid()
      modifies this`heap
      ensures Valid()
      ensures r.Raise? <==> ObjCheck(objects, h, FileKind).Raise?
      ensures ObjCheck(objects, h, FileKind) == Ok(NULL) ==> r == Ok(false) && heap == old(heap)
      ensures r.Raise? ==> heap == old(heap)
      ensures ObjCheck(objects, h, FileKind) == Ok(h.addr) ==>
        && old(heap)[h.addr].File?
        && var (ok, t) := e.delete(old(heap)[h.addr].text, pos, len);
           r == Ok(ok) && heap == old(heap)[h.addr := old(heap)[h.addr].(text := t)]
    {
      match ObjCheck(objects, h, FileKind)
      case Raise(err) =>
        r := Raise(err);
      case Ok(a) =>
        if a == NULL {
          r := Ok(false);
        } else {
          var (ok, t) := e.delete(heap[a].text, pos, len);
          SetText(a, t);
          r := Ok(ok);
        }
    }

    /** The text engine replaces the text of live file `a`. */
    method SetText(a: Addr, t: Text)
      requires Valid() && a in heap && heap[a].File?
      modifies this`heap
      ensures Valid()
      ensures heap == old(heap)[a := old(heap)[a].(text := t)]
    {
      ChainTextUpdate(heap, files, FileKind, fileChain, a, t);
      ChainTextUpdate(heap, windows, WindowKind, windowChain, a, t);
      heap := heap[a := heap[a].(text := t)];
    }
  }
}
