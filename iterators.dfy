/** Lazy traversals handed to scripts.  `vis.files()` and
    `vis.windows()` return a closure over a cursor cell holding the next
    native address; each call proxies that object and advances along
    `next`.  `file:lines()` returns a closure over a byte offset; each
    call reads the line starting there and advances past it. */
module Iterators {
  import opened Native
  import opened Lua
  import opened Registry
  import opened Session

  /** What one call of a `files`/`windows` iterator returns. */
  datatype Step = End | Yield(h: Handle) | Failed(error: LuaError)

  /** The closure returned by `files()` / `windows()`. */
  class ChainIterator {
    const kind: Kind
    /** The cursor cell: the next native address to visit, NULL at the end. */
    var cursor: Addr
    /** The host list at the time of the call (its head and its
        objects), what is already visited and what is left. */
    ghost const head: Addr
    ghost const chain: seq<Addr>
    ghost var visited: seq<Addr>
    ghost var remaining: seq<Addr>

    ghost predicate Valid(heap: Heap)
      reads this
    {
      && visited + remaining == chain
      && IsChain(heap, head, kind, chain)
      && IsChain(heap, cursor, kind, remaining)
    }

    /** `files`: a traversal of the host's file list from its head. */
    constructor Files(vis: Vis)
      requires vis.Valid()
      ensures Valid(vis.heap) && kind == FileKind && cursor == vis.files
      ensures chain == vis.fileChain && visited == [] && remaining == chain
    {
      kind := FileKind;
      cursor := vis.files;
      head := vis.files;
      chain := vis.fileChain;
      visited := [];
      remaining := vis.fileChain;
    }

    /** `windows`: a traversal of the host's window list from its head. */
    constructor Windows(vis: Vis)
      requires vis.Valid()
      ensures Valid(vis.heap) && kind == WindowKind && cursor == vis.windows
      ensures chain == vis.windowChain && visited == [] && remaining == chain
    {
      kind := WindowKind;
      cursor := vis.windows;
      head := vis.windows;
      chain := vis.windowChain;
      visited := [];
      remaining := vis.windowChain;
    }

    /** `files_iter` / `windows_iter`: the handle of the next object of
        the list, obtained through `obj_new`, or the end.  Calls after the
        end keep answering the end. */
    method Next(vis: Vis) returns (r: Step)
      requires vis.Valid() && Valid(vis.heap)
      modifies this, vis`objects
      ensures vis.Valid() && Valid(vis.heap)
      ensures old(remaining) == [] ==>
        r == End && visited == old(visited) && remaining == [] && vis.objects == old(vis.objects)
      ensures old(remaining) != [] ==>
        && r.Yield? && r.h.addr == old(remaining)[0] && r.h.kind == kind
        && r.h.addr in vis.objects && vis.objects[r.h.addr] == r.h
        && (r.h.addr in old(vis.objects) ==> r.h == old(vis.objects)[r.h.addr] && vis.objects == old(vis.objects))
        && (r.h.addr !in old(vis.objects) ==>
              fresh(r.h) && r.h.store == map[] && vis.objects == old(vis.objects)[r.h.addr := r.h])
        && visited == old(visited) + [r.h.addr] && remaining == old(remaining)[1..]
    {
      if cursor == NULL {
        return End;
      }
      var p := vis.ObjNew(cursor, kind);
      match p
      case Null =>
        r := End;
      case Raised(e) =>
        r := Failed(e);
      case Got(h) =>
        cursor := vis.heap[cursor].next;
        visited := visited + [remaining[0]];
        remaining := remaining[1..];
        r := Yield(h);
    }
  }

  /** A traversal visits every object of the list exactly once: when it
      has ended, it has visited the whole list, without repetition. */
  lemma TraversalComplete(it: ChainIterator, heap: Heap)
    requires it.Valid(heap) && it.cursor == NULL
    ensures it.visited == it.chain
    ensures forall i, j :: 0 <= i < j < |it.visited| ==> it.visited[i] != it.visited[j]
  {
    ChainUnique(heap, it.cursor, NULL, it.kind, it.remaining, []);
    ChainDistinct(heap, it.head, it.kind, it.chain);
  }

  /** The line starting at `pos` and the offset after it, or nothing when
      the engine makes no progress from `pos`. */
  function NextLine(e: Engine, t: Text, pos: nat): (r: Option<(Bytes, nat)>)
    requires EngineValid(e)
    ensures r.None? <==> e.lineNext(t, pos) == pos
    ensures r.Some? ==>
      && pos < r.value.1 <= |t|
      && r.value.1 == e.lineNext(t, pos)
      && r.value.0 == e.bytesGet(t, pos, r.value.1 - pos)
      && |r.value.0| <= r.value.1 - pos
  {
    var next := e.lineNext(t, pos);
    if next == pos then None else Some((e.bytesGet(t, pos, next - pos), next))
  }

  /** All the lines successive calls return from offset `pos` on, while
      the text stays `t`; there are never more of them than bytes left. */
  function Lines(e: Engine, t: Text, pos: nat): (r: seq<Bytes>)
    requires EngineValid(e)
    ensures |r| + pos <= Max(pos, |t|)
    decreases |t| - pos
  {
    match NextLine(e, t, pos)
    case None => []
    case Some((line, next)) => [line] + Lines(e, t, next)
  }

  /** The closure returned by `file:lines()`: upvalue 1 is the file
      handle, upvalue 2 the byte-offset cursor. */
  class LinesIterator {
    const file: Handle
    var pos: nat

    constructor (file: Handle)
      ensures this.file == file && pos == 0
    {
      this.file := file;
      pos := 0;
    }

    /** `file_lines_iter`, with the staleness check the other handle
        operations make: a stale handle ends the traversal instead of
        reading the native object. */
    method Next(vis: Vis, e: Engine) returns (r: Outcome<Option<Bytes>>)
      requires vis.Valid() && EngineValid(e)
      modifies this`pos
      ensures match ObjCheck(vis.objects, file, FileKind)
        case Raise(err) => r == Raise(err) && pos == old(pos)
        case Ok(a) =>
          if a == NULL then r == Ok(None) && pos == old(pos)
          else
            && vis.heap[a].File?
            && match NextLine(e, vis.heap[a].text, old(pos))
               case None => r == Ok(None) && pos == old(pos)
               case Some((line, next)) =>
                 && r == Ok(Some(line)) && pos == next && old(pos) < pos
                 && Lines(e, vis.heap[a].text, old(pos)) == [line] + Lines(e, vis.heap[a].text, pos)
    {
      match ObjCheck(vis.objects, file, FileKind)
      case Raise(err) =>
        r := Raise(err);
      case Ok(a) =>
        if a == NULL {
          r := Ok(None);
        } else {
          match NextLine(e, vis.heap[a].text, pos)
          case None =>
            r := Ok(None);
          case Some((line, next)) =>
            pos := next;
            r := Ok(Some(line));
        }
    }
  }

  /** `file_lines`: the argument must be a file handle; the traversal
      starts at offset 0. */
  method FileLines(vis: Vis, h: Handle) returns (r: Outcome<LinesIterator>)
    ensures r.Raise? <==> ObjArgGet(vis.objects, h, FileKind).Raise?
    ensures r.Ok? ==> fresh(r.value) && r.value.file == h && r.value.pos == 0
  {
    match ObjArgGet(vis.objects, h, FileKind)
    case Raise(err) =>
      r := Raise(err);
    case Ok(_) =>
      var it := new LinesIterator(h);
      r := Ok(it);
  }

  /** What one call of the lines closure does as written: it reads the
      native file at the handle's address without consulting the
      registry; once the host has freed that file the read dangles. */
  datatype Read = Read(line: Option<(Bytes, nat)>) | Dangling

  function NextLineAsWritten(heap: Heap, e: Engine, file: Handle, pos: nat): (r: Read)
    requires EngineValid(e)
    ensures file.addr in heap && heap[file.addr].File? ==> r == Read(NextLine(e, heap[file.addr].text, pos))
    ensures !(file.addr in heap && heap[file.addr].File?) ==> r == Dangling
  {
    if file.addr in heap && heap[file.addr].File? then Read(NextLine(e, heap[file.addr].text, pos))
    else Dangling
  }

  /** Finding: after the file is closed (its handle is stale), the
      as-written closure still reads the native text, and reads freed
      memory once the host has released the file; the corrected closure
      ends the traversal. */
  lemma StaleLinesIteratorReadsNative(objects: Objects, heap: Heap, e: Engine, file: Handle, pos: nat)
    requires EngineValid(e)
    requires file.kind == FileKind && file.addr !in objects
    requires file.addr in heap && heap[file.addr].File?
    requires e.lineNext(heap[file.addr].text, pos) != pos
    ensures NextLineAsWritten(heap, e, file, pos).Read?
    ensures NextLineAsWritten(heap, e, file, pos).line.Some?
    ensures NextLineAsWritten(heap - {file.addr}, e, file, pos) == Dangling
    ensures ObjCheck(objects, file, FileKind) == Ok(NULL)
  {
  }
}
