/** The host side of the binding: native documents and windows, the
    `next`-linked lists the host keeps them in, and the text engine that
    owns a document's bytes.  Native objects live in a heap keyed by
    address; address 0 is NULL. */
module Native {

  datatype Option<T> = None | Some(value: T)

  /** A native address; 0 is NULL. */
  type Addr = nat
  const NULL: Addr := 0

  /** A non-NULL address, the only kind a script handle can hold. */
  type Ptr = a: Addr | a != NULL witness 1

  newtype byte = b: int | 0 <= b < 256
  type Bytes = seq<byte>

  /** The state of a document's text engine: the bytes of the document. */
  type Text = Bytes

  /** The two native kinds a script can hold a handle to
      ("vis.file" and "vis.window"). */
  datatype Kind = FileKind | WindowKind

  /** A native record.  A File has a display name (None for a buffer
      without one, a NULL `name`), the next file of the host's list and
      its text; a Window has the file it shows and the
      next window of the host's list. */
  datatype NativeObj =
    | File(name: Option<string>, next: Addr, text: Text)
    | Window(file: Addr, next: Addr)

  type Heap = map<Addr, NativeObj>

  function KindOf(o: NativeObj): Kind {
    if o.File? then FileKind else WindowKind
  }

  /** What the host guarantees of its heap: NULL is never an object and a
      window's file is NULL or a live file. */
  predicate WellFormed(heap: Heap) {
    && NULL !in heap
    && forall a :: a in heap && heap[a].Window? ==>
         heap[a].file == NULL || (heap[a].file in heap && heap[heap[a].file].File?)
  }

  /** `s` lists, in order, the objects reached from `head` by following
      `next` until NULL; every one of them is live and of kind `kind`. */
  ghost predicate IsChain(heap: Heap, head: Addr, kind: Kind, s: seq<Addr>)
    decreases |s|
  {
    if s == [] then head == NULL
    else
      && head == s[0] && head != NULL && head in heap
      && KindOf(heap[head]) == kind
      && IsChain(heap, heap[head].next, kind, s[1..])
  }

  /** A head determines its chain: the list an iterator walks is a
      function of the heap. */
  lemma {:induction false} ChainUnique(heap: Heap, h1: Addr, h2: Addr, kind: Kind, s1: seq<Addr>, s2: seq<Addr>)
    requires IsChain(heap, h1, kind, s1) && IsChain(heap, h2, kind, s2)
    ensures h1 == h2 ==> s1 == s2
    decreases |s1|
  {
    if h1 == h2 && s1 != [] {
      ChainUnique(heap, heap[h1].next, heap[h2].next, kind, s1[1..], s2[1..]);
    }
  }

  /** Every suffix of a chain is the chain of its first element. */
  lemma {:induction false} ChainSuffix(heap: Heap, head: Addr, kind: Kind, s: seq<Addr>, j: nat)
    requires IsChain(heap, head, kind, s) && j <= |s|
    ensures IsChain(heap, if j == |s| then NULL else s[j], kind, s[j..])
    decreases j
  {
    if j > 0 {
      ChainSuffix(heap, heap[head].next, kind, s[1..], j - 1);
      assert s[1..][j - 1..] == s[j..];
    }
  }

  /** A chain never visits an object twice, so walking it ends after
      exactly |s| steps. */
  lemma {:induction false} ChainDistinct(heap: Heap, head: Addr, kind: Kind, s: seq<Addr>)
    requires IsChain(heap, head, kind, s)
    ensures forall i, j :: 0 <= i < j < |s| ==> s[i] != s[j]
    decreases |s|
  {
    if s != [] {
      ChainDistinct(heap, heap[head].next, kind, s[1..]);
      forall j | 0 < j < |s|
        ensures s[0] != s[j]
      {
        ChainSuffix(heap, head, kind, s, j);
        ChainUnique(heap, head, s[j], kind, s, s[j..]);
      }
      forall i, j | 0 < i < j < |s|
        ensures s[i] != s[j]
      {
        assert s[i] == s[1..][i - 1] && s[j] == s[1..][j - 1];
      }
    }
  }

  /** Replacing the text of a live file leaves every chain intact. */
  lemma {:induction false} ChainTextUpdate(heap: Heap, head: Addr, kind: Kind, s: seq<Addr>, a: Addr, t: Text)
    requires IsChain(heap, head, kind, s)
    requires a in heap && heap[a].File?
    ensures IsChain(heap[a := heap[a].(text := t)], head, kind, s)
    decreases |s|
  {
    if s != [] {
      ChainTextUpdate(heap, heap[head].next, kind, s[1..], a, t);
    }
  }

  function Max(x: nat, y: nat): nat {
    if x < y then y else x
  }

  /** The text engine, opaque to the binding: `lineNext(t, pos)` is the
      offset where the line after `pos` starts, `bytesGet(t, pos, len)`
      reads at most `len` bytes from `pos`, and `insert`/`delete` report
      success together with the resulting text. */
  datatype Engine = Engine(
    lineNext: (Text, nat) -> nat,
    bytesGet: (Text, nat, nat) -> Bytes,
    insert: (Text, nat, Bytes) -> (bool, Text),
    delete: (Text, nat, nat) -> (bool, Text))

  /** What the binding relies on: `lineNext` never moves backwards and
      never past the end of the text, and `bytesGet` reads no more than
      asked. */
  ghost predicate EngineValid(e: Engine) {
    && (forall t: Text, pos: nat :: pos <= e.lineNext(t, pos) <= Max(pos, |t|))
    && (forall t: Text, pos: nat, len: nat :: |e.bytesGet(t, pos, len)| <= len)
  }
}
