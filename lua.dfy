/** The script side as the binding sees it: Lua keys and values, tables
    used as extension stores, the userdata handles wrapping native
    addresses, and the `vis.events` field. */
module Lua {
  import opened Native

  /** A Lua table key (any value but nil).  Numbers are modelled as
      integers; tables, functions and other references by identity. */
  datatype Key = KStr(s: string) | KNum(n: int) | KBool(b: bool) | KRef(id: nat)

  /** A Lua value.  `VFunc` is any function (a C function registered by
      the binding is named after it); `VHandle` is a binding handle. */
  datatype Value =
    | Nil
    | VBool(b: bool)
    | VNum(n: int)
    | VStr(s: string)
    | VFunc(fname: string)
    | VHandle(h: Handle)
    | VRef(id: nat)

  /** A Lua table: absent keys read as nil and nil is never stored. */
  type Store = map<Key, Value>

  predicate NilFree(s: Store) {
    forall k :: k in s ==> s[k] != Nil
  }

  /** `t[k]` on a plain table. */
  function StoreGet(s: Store, k: Key): Value {
    if k in s then s[k] else Nil
  }

  /** `t[k] = v` on a plain table: assigning nil removes the key. */
  function StoreSet(s: Store, k: Key, v: Value): (r: Store)
    ensures StoreGet(r, k) == v
    ensures forall k' :: k' != k ==> StoreGet(r, k') == StoreGet(s, k')
    ensures NilFree(s) ==> NilFree(r)
    ensures r.Keys <= s.Keys + {k}
  {
    if v == Nil then s - {k} else s[k := v]
  }

  /** A full userdata created by the binding: its metatable fixes its
      kind, its payload is the native address, and its uservalue table is
      the handle's extension store. */
  class Handle {
    const kind: Kind
    const addr: Ptr
    var store: Store

    constructor (kind: Kind, addr: Ptr)
      ensures this.kind == kind && this.addr == addr && store == map[]
    {
      this.kind := kind;
      this.addr := addr;
      store := map[];
    }
  }

  /** The value of `vis.events`: normally a table of callbacks, but a
      script may store anything there. */
  datatype EventsField = EventsTable(entries: map<string, Value>) | EventsOther(v: Value)

  /** The value `vis_lua_event` leaves on top of the stack for event
      `name`: the field `name` of `vis.events` when that is a table (nil
      when absent); otherwise `lua_remove(L, -2)` removes `vis` and leaves
      `vis.events` itself there. */
  function EventTop(events: EventsField, name: string): Value {
    match events
    case EventsTable(entries) => if name in entries then entries[name] else Nil
    case EventsOther(v) => v
  }

  /** Whether a notification calls a callback for event `name`: a table
      answers through its `name` entry only, and anything else stored in
      `vis.events` answers every event alike, so a function stored there
      directly is called for every event. */
  function Handler(events: EventsField, name: string): (r: bool)
    ensures r <==> EventTop(events, name).VFunc?
  {
    match events
    case EventsTable(entries) => name in entries && entries[name].VFunc?
    case EventsOther(v) => v.VFunc?
  }

  /** The string C code sees through `lua_tostring`: Lua strings may hold
      NUL characters, and `strcmp` stops at the first one. */
  function CString(s: string): (r: string)
    ensures r <= s
    ensures forall i :: 0 <= i < |r| ==> r[i] != '\0'
    ensures |r| < |s| ==> s[|r|] == '\0'
    decreases |s|
  {
    if s == [] || s[0] == '\0' then [] else [s[0]] + CString(s[1..])
  }

  /** A string without NUL reads the same through `lua_tostring`. */
  lemma {:induction false} CStringOfPlain(s: string)
    requires forall i :: 0 <= i < |s| ==> s[i] != '\0'
    ensures CString(s) == s
    decreases |s|
  {
    if s != [] {
      CStringOfPlain(s[1..]);
    }
  }

  /** Whatever follows the first NUL is invisible to `strcmp`. */
  lemma {:induction false} CStringStopsAtNul(s: string, rest: string)
    requires forall i :: 0 <= i < |s| ==> s[i] != '\0'
    ensures CString(s + ['\0'] + rest) == s
    decreases |s|
  {
    if s != [] {
      CStringStopsAtNul(s[1..], rest);
      assert (s + ['\0'] + rest)[1..] == s[1..] + ['\0'] + rest;
    } else {
      assert (s + ['\0'] + rest)[0] == '\0';
    }
  }

  /** The decimal text Lua gives an integer when it converts a number to
      a string. */
  function NumberToString(n: int): (r: string)
    ensures |r| > 0 && (r[0] == '-' || '0' <= r[0] <= '9')
  {
    if n < 0 then "-" + Digits(-n) else Digits(n)
  }

  function Digits(n: nat): (r: string)
    ensures |r| > 0
    ensures forall i :: 0 <= i < |r| ==> '0' <= r[i] <= '9'
    decreases n
  {
    var d := ['0' + (n % 10) as char];
    if n < 10 then d else Digits(n / 10) + d
  }
}
