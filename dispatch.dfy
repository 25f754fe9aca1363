/** Attribute dispatch on handles: the `__index` metamethods of the
    "vis.file" and "vis.window" metatables, as pure functions of the
    registry, the native heap, the handle and its extension store.

    The read order on a live handle is: the kind's native key (`name`
    for a file, `file` for a window), then the shared metatable, then
    the handle's own extension store.  A stale handle reads nil.

    The two functions named `...AsWritten` reproduce two defects of the
    source's read path; the rest of the model uses the corrected
    `FileIndex` and `WindowDispatch`. */
module Dispatch {
  import opened Native
  import opened Lua
  import opened Registry

  /** The metatable registered for each kind at session start: the
      metamethods and, for files, the `insert`, `delete` and `lines`
      methods. */
  function Metatable(kind: Kind): (m: map<Key, Value>)
    ensures NilFree(m)
    ensures KStr("__index") in m && KStr("__newindex") in m
    ensures forall k :: k in m ==> k.KStr? && |k.s| > 0 && (k.s[0] == '_' || 'a' <= k.s[0] <= 'z')
  {
    if kind == FileKind then
      map[KStr("__index") := VFunc("file_index"),
          KStr("__newindex") := VFunc("file_newindex"),
          KStr("insert") := VFunc("file_insert"),
          KStr("delete") := VFunc("file_delete"),
          KStr("lines") := VFunc("file_lines")]
    else
      map[KStr("__index") := VFunc("window_index"),
          KStr("__newindex") := VFunc("window_newindex")]
  }

  /** The name of the one attribute backed by the native object. */
  function NativeName(kind: Kind): string {
    if kind == FileKind then "name" else "file"
  }

  /** Whether the dispatch treats `key` as the native attribute: a string
      key that `strcmp` finds equal to the name, i.e. whose text up to the
      first NUL is the name.  A number key is not (this path does not
      convert it). */
  predicate IsNativeKey(kind: Kind, key: Key)
    ensures IsNativeKey(kind, key) <==>
      && key.KStr? && NativeName(kind) <= key.s
      && (|key.s| == |NativeName(kind)| || key.s[|NativeName(kind)|] == '\0')
  {
    NativeNameShape(kind);
    key.KStr? && CString(key.s) == NativeName(kind)
  }

  /** The native names hold no NUL, so `strcmp` compares them whole. */
  lemma NativeNameShape(kind: Kind)
    ensures forall i :: 0 <= i < |NativeName(kind)| ==> NativeName(kind)[i] != '\0'
  {
  }

  /** The native key is the plain name, and also any string that
      continues it after a NUL. */
  lemma NativeKeys(kind: Kind, rest: string)
    ensures IsNativeKey(kind, KStr(NativeName(kind)))
    ensures IsNativeKey(kind, KStr(NativeName(kind) + ['\0'] + rest))
    ensures !IsNativeKey(kind, KStr(NativeName(kind) + "s"))
  {
    var n := NativeName(kind);
    CStringOfPlain(n);
    CStringStopsAtNul(n, rest);
    CStringOfPlain(n + "s");
  }

  /** What `lua_pushstring(L, file->name)` pushes: the name, or nil for a
      NULL name. */
  function NameValue(o: NativeObj): (v: Value)
    requires o.File?
    ensures v == Nil <==> o.name.None?
    ensures o.name.Some? ==> v == VStr(o.name.value)
  {
    match o.name
    case None => Nil
    case Some(n) => VStr(n)
  }

  /** `index_common`: a non-nil metatable entry wins, otherwise the
      extension store answers. */
  function IndexCommon(kind: Kind, store: Store, key: Key): (r: Value)
    ensures key in Metatable(kind) ==> r == Metatable(kind)[key] && r != Nil
    ensures key !in Metatable(kind) ==> r == StoreGet(store, key)
  {
    var meta := Metatable(kind);
    if key in meta then meta[key] else StoreGet(store, key)
  }

  /** `file_index` on handle `h` whose extension store is `store`. */
  function FileIndex(objects: Objects, heap: Heap, h: Handle, store: Store, key: Key): (r: Outcome<Value>)
    requires Coherent(objects, heap)
    ensures r.Raise? <==> ObjCheck(objects, h, FileKind).Raise?
    ensures h.kind == FileKind && h.addr !in objects ==> r == Ok(Nil)
    ensures r.Ok? && r.value != Nil ==> h.kind == FileKind && Live(objects, h)
    ensures h.kind == FileKind && Live(objects, h) ==>
      && heap[h.addr].File?
      && (IsNativeKey(FileKind, key) && heap[h.addr].name.Some? ==> r == Ok(VStr(heap[h.addr].name.value)))
      && (IsNativeKey(FileKind, key) && heap[h.addr].name.None? ==> r == Ok(Nil))
      && (!IsNativeKey(FileKind, key) && key in Metatable(FileKind) ==> r == Ok(Metatable(FileKind)[key]))
      && (!IsNativeKey(FileKind, key) && key !in Metatable(FileKind) ==> r == Ok(StoreGet(store, key)))
  {
    match ObjCheck(objects, h, FileKind)
    case Raise(e) => Raise(e)
    case Ok(a) =>
      if a == NULL then Ok(Nil)
      else if IsNativeKey(FileKind, key) then Ok(NameValue(heap[a]))
      else Ok(IndexCommon(FileKind, store, key))
  }

  /** What `window_index` does next: answer with a value, or proxy the
      window's file (which may register a new handle). */
  datatype Answer = Value(v: Value) | FileOf(file: Ptr)

  /** `window_index` on handle `h` whose extension store is `store`, up
      to the proxying of the window's file. */
  function WindowDispatch(objects: Objects, heap: Heap, h: Handle, store: Store, key: Key): (r: Outcome<Answer>)
    requires Coherent(objects, heap) && WellFormed(heap)
    ensures r.Raise? <==> ObjCheck(objects, h, WindowKind).Raise?
    ensures h.kind == WindowKind && h.addr !in objects ==> r == Ok(Value(Nil))
    ensures r.Ok? && r.value != Value(Nil) ==> h.kind == WindowKind && Live(objects, h)
    ensures h.kind == WindowKind && Live(objects, h) ==>
      && heap[h.addr].Window?
      && (IsNativeKey(WindowKind, key) && heap[h.addr].file == NULL ==> r == Ok(Value(Nil)))
      && (IsNativeKey(WindowKind, key) && heap[h.addr].file != NULL ==>
            r == Ok(FileOf(heap[h.addr].file)) && heap[h.addr].file in heap && heap[heap[h.addr].file].File?)
      && (!IsNativeKey(WindowKind, key) && key in Metatable(WindowKind) ==> r == Ok(Value(Metatable(WindowKind)[key])))
      && (!IsNativeKey(WindowKind, key) && key !in Metatable(WindowKind) ==> r == Ok(Value(StoreGet(store, key))))
  {
    match ObjCheck(objects, h, WindowKind)
    case Raise(e) => Raise(e)
    case Ok(a) =>
      if a == NULL then Ok(Value(Nil))
      else if IsNativeKey(WindowKind, key) then
        (if heap[a].file == NULL then Ok(Value(Nil)) else Ok(FileOf(heap[a].file)))
      else Ok(Value(IndexCommon(WindowKind, store, key)))
  }

  /** No write to the extension store changes what a native key reads:
      native truth wins. */
  lemma NativeNameSurvivesWrite(objects: Objects, heap: Heap, h: Handle, store: Store, key: Key, k: Key, v: Value)
    requires Coherent(objects, heap)
    requires h.kind == FileKind && Live(objects, h)
    requires IsNativeKey(FileKind, key)
    ensures FileIndex(objects, heap, h, StoreSet(store, k, v), key)
         == FileIndex(objects, heap, h, store, key)
         == Ok(NameValue(heap[h.addr]))
  {
  }

  lemma NativeFileSurvivesWrite(objects: Objects, heap: Heap, h: Handle, store: Store, key: Key, k: Key, v: Value)
    requires Coherent(objects, heap) && WellFormed(heap)
    requires h.kind == WindowKind && Live(objects, h)
    requires IsNativeKey(WindowKind, key)
    ensures WindowDispatch(objects, heap, h, StoreSet(store, k, v), key)
         == WindowDispatch(objects, heap, h, store, key)
  {
  }

  /** On a live handle, a key that is neither native nor in the
      metatable reads back what was last written to it, and writing one
      key leaves every other key's reading unchanged. */
  lemma FileWriteThenRead(objects: Objects, heap: Heap, h: Handle, store: Store, k: Key, v: Value, k': Key)
    requires Coherent(objects, heap)
    requires h.kind == FileKind && Live(objects, h)
    requires !IsNativeKey(FileKind, k) && k !in Metatable(FileKind)
    ensures FileIndex(objects, heap, h, StoreSet(store, k, v), k) == Ok(v)
    ensures k' != k ==>
      FileIndex(objects, heap, h, StoreSet(store, k, v), k') == FileIndex(objects, heap, h, store, k')
  {
  }

  lemma WindowWriteThenRead(objects: Objects, heap: Heap, h: Handle, store: Store, k: Key, v: Value, k': Key)
    requires Coherent(objects, heap) && WellFormed(heap)
    requires h.kind == WindowKind && Live(objects, h)
    requires !IsNativeKey(WindowKind, k) && k !in Metatable(WindowKind)
    ensures WindowDispatch(objects, heap, h, StoreSet(store, k, v), k) == Ok(Value(v))
    ensures k' != k ==>
      WindowDispatch(objects, heap, h, StoreSet(store, k, v), k') == WindowDispatch(objects, heap, h, store, k')
  {
  }

  /** The key the lookup sees as written: `lua_isstring` accepts a number
      and `lua_tostring` then turns the stack slot itself into a string,
      so a numeric key is looked up as its decimal text. */
  function ReadKeyAsWritten(key: Key): (r: Key)
    ensures !r.KNum?
    ensures !key.KNum? ==> r == key
    ensures key.KNum? ==> r.KStr? && r.s != [] && (r.s[0] == '-' || '0' <= r.s[0] <= '9')
  {
    if key.KNum? then KStr(NumberToString(key.n)) else key
  }

  /** `file_index` as written: like `FileIndex`, but with the key
      converted before the native test, the metatable and the store. */
  function FileIndexAsWritten(objects: Objects, heap: Heap, h: Handle, store: Store, key: Key): (r: Outcome<Value>)
    requires Coherent(objects, heap)
    ensures !key.KNum? ==> r == FileIndex(objects, heap, h, store, key)
  {
    match ObjCheck(objects, h, FileKind)
    case Raise(e) => Raise(e)
    case Ok(a) =>
      if a == NULL then Ok(Nil)
      else
        var k := ReadKeyAsWritten(key);
        if IsNativeKey(FileKind, k) then Ok(NameValue(heap[a]))
        else Ok(IndexCommon(FileKind, store, k))
  }

  /** `window_index` as written: the key conversion above, and for a
      window without a file, `obj_new` pushes nothing, so the `return 1`
      hands back the top of the stack, which is the key string. */
  function WindowDispatchAsWritten(objects: Objects, heap: Heap, h: Handle, store: Store, key: Key): (r: Outcome<Answer>)
    requires Coherent(objects, heap) && WellFormed(heap)
    ensures !key.KNum? && r != WindowDispatch(objects, heap, h, store, key) ==>
      && h.kind == WindowKind && Live(objects, h) && IsNativeKey(WindowKind, key)
      && heap[h.addr].file == NULL && r == Ok(Value(VStr(key.s)))
  {
    match ObjCheck(objects, h, WindowKind)
    case Raise(e) => Raise(e)
    case Ok(a) =>
      if a == NULL then Ok(Value(Nil))
      else
        var k := ReadKeyAsWritten(key);
        if IsNativeKey(WindowKind, k) then
          (if heap[a].file == NULL then Ok(Value(VStr(k.s))) else Ok(FileOf(heap[a].file)))
        else Ok(Value(IndexCommon(WindowKind, store, k)))
  }

  /** Finding: a value stored under a numeric key cannot be read back
      through the as-written path, while the corrected path returns it. */
  lemma NumericKeyLostAsWritten(objects: Objects, heap: Heap, h: Handle, n: int, v: Value)
    requires Coherent(objects, heap)
    requires h.kind == FileKind && Live(objects, h)
    requires v != Nil
    ensures FileIndexAsWritten(objects, heap, h, StoreSet(map[], KNum(n), v), KNum(n)) == Ok(Nil)
    ensures FileIndex(objects, heap, h, StoreSet(map[], KNum(n), v), KNum(n)) == Ok(v)
  {
    var s := NumberToString(n);
    assert s[0] == '-' || '0' <= s[0] <= '9';
    assert CString(s) == [] || CString(s)[0] == s[0];
    assert !IsNativeKey(FileKind, KStr(s));
    assert KStr(s) !in Metatable(FileKind);
  }

  /** Finding: as written, reading `file` on a live window that shows no
      file returns the string "file"; the corrected path returns nil. */
  lemma WindowWithoutFileAsWritten(objects: Objects, heap: Heap, h: Handle, store: Store)
    requires Coherent(objects, heap) && WellFormed(heap)
    requires h.kind == WindowKind && Live(objects, h)
    requires heap[h.addr].file == NULL
    ensures WindowDispatchAsWritten(objects, heap, h, store, KStr("file")) == Ok(Value(VStr("file")))
    ensures WindowDispatch(objects, heap, h, store, KStr("file")) == Ok(Value(Nil))
  {
    NativeKeys(WindowKind, "");
  }
}
