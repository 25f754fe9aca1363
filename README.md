# vis Lua binding: handle registry, dispatch, iterators and lifecycle

This project models the object system that the vis editor's Lua binding (`vis-lua.c`) builds on the Lua C API. It then proves what that system promises to scripts.

- **Handle registry.** The host's documents ("files") and windows are native records, identified by address. A script sees such a record only through a *handle*. A handle is a userdata that holds the address, has the metatable of its kind ("vis.file" or "vis.window"), and carries a private *extension store* (its uservalue table). The registry `vis.objects` maps each address to at most one handle. Handles are created lazily (get-or-create) and unregistered when the host closes the object. A handle whose address is no longer registered is *stale*. Every read on it gives nil, `insert`, `delete` and `lines` included, so calling `f:insert(...)` on a stale handle raises a call of a nil value. Writes to it do nothing. A `file_insert` or `file_delete` fetched while the handle was live and called after it went stale returns false.
- **Attribute dispatch.** A read on a live handle is answered by the first of these that applies:
  1. the native attribute (`name` of a file, `file` of a window);
  2. the kind's metatable;
  3. the handle's extension store.
  
  Writes only ever touch the extension store.
- **Iterators.** `vis.files()` and `vis.windows()` walk the host's `next`-linked lists. `file:lines()` walks a file's text line by line, through the text engine.
- **Lifecycle.** On file close, window open and window close, the binding calls the matching callback from `vis.events`, if there is one. A close then unregisters the object, whatever the callback did.
- **Search path.** At session start, `package.path` is extended in front with the user's and the system's vis directories.

Layout, one module per file:

| file | module | contents |
|---|---|---|
| `native.dfy` | `Native` | The host: a heap of records keyed by address (0 is NULL), its `next` chains, and the text engine as a value of four functions. |
| `lua.dfy` | `Lua` | Lua keys and values, tables as maps, the `Handle` class, the `vis.events` field, and number-to-string conversion. |
| `registry.dfy` | `Registry` | `obj_get`, `obj_check` and `obj_arg_get` as functions of the registry, plus the registry invariant `Coherent`. |
| `dispatch.dfy` | `Dispatch` | The `__index` metamethods as functions, their write/read laws, and the as-written variants of the findings below. |
| `session.dfy` | `Session` | Class `Vis`: the host heap and the registry. `obj_new`, `obj_del`, `window_index`, the `__newindex` metamethods, `insert` and `delete` are methods that change it in place. |
| `iterators.dfy` | `Iterators` | The `files`/`windows` closures and the `lines` closure, as classes holding their cursor cells. |
| `events.dfy` | `Events` | Callbacks, and the open and close notifications. |
| `search_path.dfy` | `SearchPath` | The `package.path` string and its reference definition. |

A handle whose address is now registered under the other kind does not read nil like an unregistered one: `obj_get` raises through `luaL_checkudata` (vis-lua.c:90). See `Registry.StaleHandleOnReusedAddressRaises`.

Native keys are compared with `strcmp` on the key's C string (vis-lua.c:233, vis-lua.c:264), so a key string is cut at its first NUL character before the comparison: "name\0x" reads a file's name. A file whose `name` is NULL reads nil for `name`, because `lua_pushstring` pushes nil for NULL (vis-lua.c:265).

## Model

| member | source | states |
|---|---|---|
| `Lua.StoreSet` | vis-lua.c:151-157 | Setting a key in a table: the key then reads the new value (a nil assignment removes it), every other key reads as before, and no nil is ever stored. |
| `Lua.Handle.constructor` | vis-lua.c:115-121 | A new handle holds the kind and the non-NULL address it was made for, and an empty extension store. |
| `Lua.CString` | vis-lua.c:264 | The string `strcmp` compares is the longest NUL-free prefix of the Lua string: a prefix, with no NUL in it, followed by a NUL or the end. |
| `Lua.CStringOfPlain` | vis-lua.c:264 | A string without NUL is compared whole. |
| `Lua.CStringStopsAtNul` | vis-lua.c:264 | Whatever follows the first NUL is ignored by the comparison. |
| `Lua.Handler` | vis-lua.c:345-353 | A notification calls a callback exactly when the value `vis_lua_event` leaves on top is a function: the `name` field of a `vis.events` table, or `vis.events` itself when it is not a table. |
| `Lua.NumberToString` | vis-lua.c:262-263 | The text Lua converts an integer key to is non-empty and starts with a digit or '-', so it is never a metatable name. |
| `Registry.ObjGet` | vis-lua.c:81-91 | Lookup by address alone: absent exactly when the address is unregistered; found (the registered handle) exactly when the entry has the asked kind; otherwise the kind-mismatch case. |
| `Registry.ObjCheck` | vis-lua.c:131-137 | The address exactly when the handle has the asked kind and its address is registered under that kind; NULL exactly when it has the asked kind and its address is unregistered; a type error exactly when the handle or the registered entry has the other kind. |
| `Registry.ObjArgGet` | vis-lua.c:126-129 | A type error exactly as for `obj_check`; no handle exactly when the address is unregistered; otherwise the registered handle, which is live. |
| `Registry.StaleHandleRevives` | vis-lua.c:131-137 | A stale handle reads as live again once another handle of its kind is registered at its address: liveness compares address and kind, not identity. |
| `Registry.StaleHandleOnReusedAddressRaises` | vis-lua.c:81-91 | A handle whose address is now registered under the other kind raises a type error instead of reading as stale. |
| `Dispatch.Metatable` | vis-lua.c:418-422 | Both metatables hold `__index` and `__newindex`, no nil, and only names that start with '_' or a lower-case letter. |
| `Dispatch.IsNativeKey` | vis-lua.c:264 | A key is the native attribute exactly when it is a string that starts with the native name and either ends there or continues with a NUL. |
| `Dispatch.NativeKeys` | vis-lua.c:233 | The native name itself is a native key, and so is the native name followed by a NUL and anything; the native name with a suffix such as "s" is not. |
| `Dispatch.NameValue` | vis-lua.c:265 | The value pushed for a file's name is nil exactly when the name is NULL, and otherwise that name as a string. |
| `Dispatch.IndexCommon` | vis-lua.c:139-149 | A key present in the kind's metatable reads the metatable's (non-nil) value; any other key reads the extension store. |
| `Dispatch.FileIndex` | vis-lua.c:255-271 | A type error exactly when `obj_check` raises. A stale file handle reads nil, and a non-nil result implies a live handle. On a live handle, a key whose C string is `name` reads the native name (nil when it is NULL); any other key reads the metatable if it holds the key, else the store. |
| `Dispatch.WindowDispatch` | vis-lua.c:224-240 | As `FileIndex` for windows. On a live window, a key whose C string is `file` proxies the window's file, which is a live native file, or reads nil when the window shows no file; any other key reads the metatable if it holds the key, else the store. |
| `Dispatch.NativeNameSurvivesWrite` | vis-lua.c:262-278 | No write to a live file's store, under any key, changes what a native key reads: the native name, or nil when it is NULL. |
| `Dispatch.NativeFileSurvivesWrite` | vis-lua.c:231-247 | No write to a live window's store, under any key, changes what a native key reads. |
| `Dispatch.FileWriteThenRead` | vis-lua.c:273-278 | On a live file, a key that is neither native (after NUL truncation) nor in the metatable reads back the value last written, and every other key reads as before the write. |
| `Dispatch.WindowWriteThenRead` | vis-lua.c:242-247 | The same law for windows. |
| `Dispatch.ReadKeyAsWritten` | vis-lua.c:262-263 | The key the lookup sees after `lua_tostring` is never a number: a string key is kept, and a number becomes its non-empty decimal text, which starts with a digit or '-'. |
| `Dispatch.FileIndexAsWritten` | vis-lua.c:262-270 | The read path as written agrees with `FileIndex` on every non-numeric key. |
| `Dispatch.WindowDispatchAsWritten` | vis-lua.c:231-239 | The read path as written differs from `WindowDispatch` on a non-numeric key only on a live window without a file and a native key, where it returns the key string itself. |
| `Dispatch.NumericKeyLostAsWritten` | vis-lua.c:262-263 | As written, a non-nil value stored under a numeric key reads back as nil. The corrected `FileIndex` returns it. |
| `Dispatch.WindowWithoutFileAsWritten` | vis-lua.c:233-235 | As written, reading `file` on a live window without a file gives the string "file". The corrected path gives nil. |
| `Session.Vis.constructor` | vis-lua.c:415-417 | At session start the registry is empty, and the session invariant holds. |
| `Session.Vis.ObjNew` | vis-lua.c:110-124 | NULL gives no handle and leaves the registry alone. A registered handle of the kind is returned unchanged, with no new entry. The other kind raises. A miss registers exactly one fresh handle, with an empty store, at that address. The registry invariant is kept. |
| `Session.Vis.ObjDel` | vis-lua.c:105-108 | The entry for the address is removed whatever its kind, nothing else changes, and an absent entry is a no-op. |
| `Session.Vis.WindowIndex` | vis-lua.c:224-240 | Returns what `WindowDispatch` answers. For `file`, it returns the window's file's handle, got or created by `obj_new`; the registry changes only by that creation. |
| `Session.Vis.NewIndex` | vis-lua.c:151-157 | The `__newindex` of either kind. On a live handle it sets exactly that key of that handle's store. On a stale handle it changes nothing. It raises exactly when `obj_check` raises, and it may modify nothing but the handle. |
| `Session.Vis.FileInsert` | vis-lua.c:280-293 | A live handle returns the engine's success flag, and the file's text becomes the engine's result. A stale handle returns false with all texts unchanged. The session invariant is kept. |
| `Session.Vis.FileDelete` | vis-lua.c:295-306 | The same, with the engine's delete. |
| `Native.ChainUnique` | vis-lua.c:190-199 | The list walked from a head is determined by the heap. |
| `Native.ChainDistinct` | vis-lua.c:169-178 | A host list never visits an object twice. |
| `Iterators.ChainIterator.Files` | vis-lua.c:182-188 | `vis.files()` starts its cursor at the head of the file list, with nothing visited. |
| `Iterators.ChainIterator.Windows` | vis-lua.c:161-167 | `vis.windows()` starts its cursor at the head of the window list, with nothing visited. |
| `Iterators.ChainIterator.Next` | vis-lua.c:190-199 | One call of `files_iter`/`windows_iter`: at the end it returns nothing and changes nothing. Otherwise it returns the handle of the next object of the list, got or created by `obj_new`, and advances by exactly that object. |
| `Iterators.TraversalComplete` | vis-lua.c:169-178 | When the cursor reaches NULL, the objects visited are exactly the list, in list order, each once. |
| `Iterators.NextLine` | vis-lua.c:321-331 | No line exactly when the engine makes no progress. Otherwise the line is the engine's bytes for [pos, next), with pos < next <= the text length. |
| `Iterators.Lines` | vis-lua.c:318-333 | The lines a traversal yields are never more than the bytes left, so it ends. |
| `Iterators.LinesIterator.constructor` | vis-lua.c:312-314 | The lines cursor starts at offset 0. |
| `Iterators.FileLines` | vis-lua.c:310-316 | `file:lines()` raises exactly when `obj_arg_get` does, and otherwise returns a fresh iterator over that handle at offset 0. |
| `Iterators.LinesIterator.Next` | vis-lua.c:318-333 | Corrected `file_lines_iter`. A stale handle ends the traversal. Otherwise it yields the first of `Lines` from the cursor, the rest of `Lines` from the new, strictly larger cursor, or the end when the engine makes no progress. |
| `Iterators.NextLineAsWritten` | vis-lua.c:318-321 | As written, the closure reads the native file at the handle's address, registered or not, and the read dangles once the file is freed. |
| `Iterators.StaleLinesIteratorReadsNative` | vis-lua.c:318-321 | As written, a lines closure over a stale handle still returns a line, and dangles once the host frees the file. The corrected closure sees NULL from `obj_check`. |
| `Events.Perform` | vis-lua.c:453 | One action of a callback keeps the session invariant and its argument registered, removes no entry, and adds only the object it asks for. A handle request (`obj_new`) never raises and leaves its object registered, unless the address is NULL. A field write raises exactly when its target's `obj_check` raises and never changes the registry. It sets the key on a live target and leaves a stale one alone. A write to the argument never raises. A raise leaves the argument's store unchanged; otherwise the argument's store is updated by that action. |
| `Events.RunCallback` | vis-lua.c:453 | `lua_pcall` with the handle as the one argument. It keeps the session invariant and the argument registered, removes no entry, and adds only objects the callback asked for. Every object a performed action asked for is registered at the end. The run stops at the first field write whose target's `obj_check` raises: none of the actions before it raised, and it stops early nowhere else. The call fails exactly when the run stopped early or the callback raised at the end. The argument's store ends as the writes of the performed actions. Every other target's store ends as the writes made to it while it was registered under its own kind, over its old store. A callback without field writes to other handles runs to the end. |
| `Events.Notify` | vis-lua.c:452-453 | The handle passed to the callback is the one registered for the object: the old one, or a fresh one with an empty store. It stays registered during the call, and its store ends as the callback's writes applied to its old store. The callback stops exactly at its first raising field write, judged against the registry with the handle in it. Every other target's store holds the writes made while that target was live, and every object the performed actions asked for is registered. |
| `Events.NotifyThenDelete` | vis-lua.c:451-455 | A close with a callback. The callback runs with the object's registered handle as in `Notify`: it stops exactly at its first raising field write, and the handle and the other targets end with the writes that took effect. Afterwards the object's entry is gone, every other entry is kept, and only proxied objects were added. |
| `Events.CloseEvent` | vis-lua.c:448-457 | The shared close sequence. A callback, if there is one, gets the object's registered handle. It stops exactly at its first field write whose `obj_check` raises in the registry it saw. Its writes to the handle take effect. Every other target's store holds the writes made while that target was live. Every object it asked for before stopping is registered. Afterwards the object is unregistered whether the callback was missing, succeeded or raised. Other entries are kept, and only proxied objects are added. With no callback, the registry loses exactly that entry and no store changes. |
| `Events.FileClose` | vis-lua.c:448-457 | `CloseEvent` for files, with the `file_close` callback and the file's handle as argument: the same stopping point, handle registration, argument store and other targets' stores. |
| `Events.WinClose` | vis-lua.c:469-478 | `CloseEvent` for windows, with the `win_close` callback and the window's handle as argument: the same stopping point, handle registration, argument store and other targets' stores. |
| `Events.WinOpen` | vis-lua.c:459-467 | With a `win_open` callback, the callback gets the window's handle and stops exactly at its first field write whose `obj_check` raises. The handle stays registered afterwards, freshly if it was absent, holding the callback's writes. Every other target's store holds the writes made while that target was live, and every object the callback asked for before stopping is registered. Without a callback, the registry and every store are unchanged. Nothing is ever unregistered. |
| `Events.OneFieldCallback` | vis-lua.c:463-464 | A `win_open` callback that sets one field on a new window's handle leaves exactly that field in its store (none for a nil value). |
| `Events.EventsFunctionAnswersEveryEvent` | vis-lua.c:345-353 | A function stored directly in `vis.events` is called for every event; an events table without the name calls nothing. |
| `SearchPath.Home` | vis-lua.c:383-389 | HOME when it is set and non-empty. Otherwise the password database's directory when there is an entry, else HOME as it was (unset or empty). |
| `SearchPath.VisEntries` | vis-lua.c:373-381 | The VIS_PATH piece is pushed exactly when VIS_PATH is set, and ends with the ';' that separates it from the next piece. |
| `SearchPath.ConfigEntries` | vis-lua.c:391-406 | The configuration piece is pushed exactly when there is a configuration directory, and ends with ';'. |
| `SearchPath.PackagePath` | vis-lua.c:408-411 | The new `package.path` starts with the VIS_PATH piece, is at least as long as the pieces always present, and ends with the old path, which is searched last. |
| `SearchPath.PathsCount` | vis-lua.c:370-410 | `lua_concat` joins three to five values: the two system pieces and the old path, plus one per optional piece actually pushed. |
| `SearchPath.ConfigDir` | vis-lua.c:391-406 | At most one user configuration directory is searched: $XDG_CONFIG_HOME/vis whenever XDG_CONFIG_HOME is set, even to the empty string; otherwise $HOME/.config/vis for the home directory of `Home` exactly when that is known and non-empty; otherwise none. |
| `SearchPath.SearchDirs` | vis-lua.c:363-368 | Two to four directories. VIS_PATH comes first when set, then exactly the directories of `ConfigDir`, then /usr/local/share/vis and /usr/share/vis last. |
| `SearchPath.ConfigPiece` | vis-lua.c:391-406 | The configuration piece pushed is exactly the two entries of `ConfigDir`: XDG_CONFIG_HOME whenever it is set (even if empty), else a non-empty home, else nothing. |
| `SearchPath.VisPiece` | vis-lua.c:373-381 | The VIS_PATH piece pushed is exactly the two entries of VIS_PATH, or nothing when it is unset. |
| `SearchPath.SystemPiece` | vis-lua.c:408-409 | The two literal system pieces are exactly the entries of /usr/local/share/vis and /usr/share/vis. |
| `SearchPath.PackagePathOrder` | vis-lua.c:370-412 | The new `package.path` is the `?.lua` and `lexers/?.lua` entries of each search directory, in priority order, followed by the old path. `lua_concat` joins exactly one value per directory plus the old path. |

## Left out

- The Lua VM and stack mechanics are not modelled: pushes and pops, upvalue indices, `luaL_newstate`, `luaL_openlibs`, `lua_close`, and garbage collection of userdata. The registry and the stores are maps, and a handle is a class instance. The stack is not balanced in the source, and that is not modelled: `vis_lua_event` leaves `vis` below the looked-up field when `vis.events` is a table and leaves `vis.events` alone otherwise, `obj_del` leaves the nil it pushes, and each notification ends with one `lua_pop`. In `vis_lua_win_open`, when `vis.events` is itself a function that returns normally, `lua_pcall` consumes it, so the final `lua_pop` (vis-lua.c:466) pops a value the notification never pushed. Depending on the path, `vis`, `vis.events`, the looked-up field or a raising callback's error message stays on the stack.
- The metatables are registered at session start as fixed values (`Dispatch.Metatable`). A script could modify these shared tables; that is not modelled.
- `command` and `info` are thin wrappers over host calls, and are not modelled.
- `require "visrc"`, `vis_theme_load` and `vis_lua_quit` are module loading and foreign calls, and are not modelled.
- `vis_lua_file_open` and `vis_lua_file_save` have empty bodies, and are not modelled.
- The `#if 0` stack dump and the stubs for builds without Lua have no behaviour.
- `getenv` and `getpwuid` are inputs: `SearchPath.Environment` carries their results.
- `SearchPath.PackagePathOrder` takes the old `package.path` as a string. The error `lua_concat` would raise on a non-string old path is not modelled.
- The text engine (`text_insert`, `text_delete`, `text_line_next`, `text_bytes_get`) is not part of this model. It is a parameter (`Native.Engine`) whose results are passed through.
- Argument errors from `luaL_checkunsigned` and `luaL_checkstring` are not modelled: positions and lengths are `nat`, and data are bytes.
- The `malloc` failure branch of `file_lines_iter` is not modelled.
- Script callbacks are foreign code. A callback is a finite sequence of field writes and handle requests, followed by success or an error. Its writes to its argument are `AssignArg` actions, resolved to the handle it was called with. Every other field write targets a handle that existed before the call: a write to a handle the callback itself obtains during the call (`w.file.x = 1` when the file had no handle yet, or a handle `vis.files()` creates) is not modelled. Callbacks that close objects, edit text, raise nested events or reassign `vis.events` are not modelled.
- Lua numbers are doubles. Keys and values here use integers, and nil or NaN keys are not modelled (assigning to them raises in Lua).
- Lua.NumberToString: exact only for integers of at most 14 digits; Lua's "%.14g" writes larger ones in exponent form, which still starts with a digit.
- Iterators.ChainIterator.Next: requires the host's list to be the one the iterator was created on. The source holds a raw `next` pointer, and the host changing its lists during a traversal is not modelled.
- Iterators.LinesIterator.Next: requires a text engine whose `text_line_next` never moves backwards and never passes the end of the text (`Native.EngineValid`); the bound that makes `Lines` end rests on the second assumption. With an engine that moved backwards, the `size_t` length in the source would wrap around; neither case is modelled.
- Session.Vis.ObjNew: the kind-mismatch raise is modelled as a result value. As the source raises outside a protected call in the notification paths, there it would abort the host. The session invariant rules that case out.

## Findings

| source | as written | input that shows it | evidently intended | confidence | as-written member | corrected member |
|---|---|---|---|---|---|---|
| vis-lua.c:262-263 | `lua_isstring` accepts a number key, and `lua_tostring` converts the stack slot to a string before `index_common` looks it up. | `f[1] = "x"` on a live file handle, then `f[1]`: the write stores under the number 1, and the read looks up the string "1" and returns nil. | A value written under a key reads back under the same key. | not executed | `Dispatch.NumericKeyLostAsWritten` | `Dispatch.FileWriteThenRead` |
| vis-lua.c:233-235 | For a window without a file, `obj_new` pushes nothing, yet `return 1` hands back the top of the stack, which is the key string "file". | `win.file` on a live window whose `file` is NULL returns "file". | nil for a window that shows no file. | not executed | `Dispatch.WindowWithoutFileAsWritten` | `Dispatch.WindowDispatch` |
| vis-lua.c:318-321 | The lines closure dereferences the file address in its handle without checking that it is still registered. | `it = f:lines()`; the file is closed and freed; `it()` reads freed memory. | A stale handle ends the traversal, as every other handle operation degrades on staleness. | not executed | `Iterators.StaleLinesIteratorReadsNative` | `Iterators.LinesIterator.Next` |
