/** The UTF-8 shim of extra/utf8fix/fix.c: two conversion helpers that size
    their output with a length query before converting, and eight wrappers that
    convert their string arguments to UTF-16, call the wide-character
    primitive, and free every converted block when they return. Six wrappers
    return the primitive's result unchanged; utf8_getcwd and utf8_getenv
    convert the wide string they get back with utf16to8 and return that.

    The native primitives are opaque to the shim. Those whose effect is only
    their result (_wfopen, _wfreopen, _wstat, _wopen, _wsystem, LoadLibraryExW)
    are function parameters: each wrapper's contract says which arguments it
    hands them and that their result comes back unchanged. _wgetcwd and
    _wgetenv, whose results the shim converts and frees, are methods of the
    C runtime (module Platform). The `scoped` cleanup attribute runs free() on
    each converted block when the wrapper's scope ends, after the native call
    and in reverse order of declaration; in utf8_getcwd and utf8_getenv it
    also frees the pointer the primitive returned. Each wrapper ends with
    those calls. */
module Utf8Fix {
  import opened Unicode
  import opened Platform

  /** A C int. */
  newtype int32 = x: int | -0x8000_0000 <= x < 0x8000_0000

  /** The bit pattern of a C int (two's complement). */
  function Bits(x: int32): bv32 {
    (x as int % 0x1_0000_0000) as bv32
  }

  /** _O_CREAT in the Microsoft C runtime's <fcntl.h>. */
  const O_CREAT: bv32 := 0x0100
  /** The permission utf8_open uses when no creation mode is passed: 0777. */
  const DefaultMode: int32 := 0x1FF
  const LOAD_LIBRARY_SEARCH_USER_DIRS: bv32 := 0x0000_0400
  const LOAD_LIBRARY_SEARCH_DEFAULT_DIRS: bv32 := 0x0000_1000

  predicate Creates(flag: int32) {
    Bits(flag) & O_CREAT != 0
  }

  /** The pointer utf8to16(input) produces: the block holding the converted
      string when calloc can supply it, NULL when it cannot. For a string it
      is a C string again (WideImageIsCString says what it reads back as);
      for NULL it is a zero-length block. */
  function WideArg(rt: Runtime, input: Ptr<u8>): (r: Ptr<u16>)
    ensures r.Null? <==> !rt.Fits(|WideImage(input)|, 2)
    ensures input.Null? ==> r == Block([])
  {
    var w := WideImage(input);
    if rt.Fits(|w|, 2) then Block(w) else Null
  }

  /** The block _wgetenv returns for utf8to16(name): the environment entry
      for the UTF-16 form of the name's text, or NULL when utf8to16 could not
      allocate. */
  function EnvFor(rt: Runtime, name: seq<u8>): array?<u16> {
    if WideArg(rt, Block(name)).Block? then rt.EnvEntry(Utf8ToUtf16(CString(name, 0))) else null
  }

  /** What utf8to16 makes of a string is a C string, and _wgetenv looks up
      exactly the name's text converted to UTF-16. */
  lemma ConvertedName(rt: Runtime, name: seq<u8>, wvar: array?<u16>)
    requires Contents(wvar) == WideArg(rt, Block(name))
    ensures Terminated(wvar, 0)
    ensures (if wvar == null then null else rt.EnvEntry(CString(wvar[..], 0))) == EnvFor(rt, name)
  {
    if wvar != null {
      WideImageIsCString(name);
      assert wvar[..][wvar.Length - 1] == 0;
    }
  }

  /** The pointer utf16to8 produces for a wide string src: a C string
      (NarrowImageIsCString says what it reads back as), or NULL when calloc
      cannot supply it; for NULL it is a zero-length block. */
  function NarrowResult(rt: Runtime, src: Ptr<u16>): (r: Ptr<u8>)
    ensures r.Null? <==> !rt.Fits(|NarrowImage(src)|, 1)
    ensures src.Null? ==> r == Block([])
  {
    var s := NarrowImage(src);
    if rt.Fits(|s|, 1) then Block(s) else Null
  }

  /** The books of a wrapper call that converted n strings: n allocation
      requests, n frees, nothing left live and no stray free. */
  twostate predicate Scoped(rt: Runtime, n: nat)
    reads rt
  {
    rt.allocs == old(rt.allocs) + n && rt.frees == old(rt.frees) + n &&
    rt.strayFrees == old(rt.strayFrees) && rt.live == old(rt.live)
  }

  // -------------------------------------------------------------- helpers

  /** utf8to16: asks MultiByteToWideChar for the length of the conversion,
      terminator included, allocates exactly that many zeroed units, and
      converts into them with that same capacity, only if the allocation
      succeeded. The result is owned by the caller. */
  method Utf8To16(rt: Runtime, input: array?<u8>) returns (ret: array?<u16>)
    requires rt.Valid() && Terminated(input, 0)
    modifies rt
    ensures rt.Valid()
    ensures rt.allocs == old(rt.allocs) + 1 && rt.frees == old(rt.frees)
    ensures rt.strayFrees == old(rt.strayFrees)
    ensures Contents(ret) == WideArg(rt, Contents(input))
    ensures ret != null ==> fresh(ret) && ret !in old(rt.live) && rt.live == old(rt.live) + {ret}
    ensures ret == null ==> rt.live == old(rt.live)
  {
    var size := MultiByteToWideChar(input, null, 0);
    ret := rt.Calloc(size, 2, 0 as u16);
    if ret != null {
      var written := MultiByteToWideChar(input, ret, size);
    }
  }

  /** utf16to8: the same two passes through WideCharToMultiByte. */
  method Utf16To8(rt: Runtime, input: array?<u16>) returns (ret: array?<u8>)
    requires rt.Valid() && Terminated(input, 0)
    modifies rt
    ensures rt.Valid()
    ensures rt.allocs == old(rt.allocs) + 1 && rt.frees == old(rt.frees)
    ensures rt.strayFrees == old(rt.strayFrees)
    ensures Contents(ret) == NarrowResult(rt, Contents(input))
    ensures ret != null ==> fresh(ret) && ret !in old(rt.live) && rt.live == old(rt.live) + {ret}
    ensures ret == null ==> rt.live == old(rt.live)
  {
    var size := WideCharToMultiByte(input, null, 0);
    ret := rt.Calloc(size, 1, 0 as u8);
    if ret != null {
      var written := WideCharToMultiByte(input, ret, size);
    }
  }

  // ------------------------------------------------------------- wrappers

  /** utf8_fopen: _wfopen on the converted path and mode. */
  method Fopen<H>(rt: Runtime, path: array?<u8>, mode: array?<u8>,
                  wfopen: (Ptr<u16>, Ptr<u16>) -> H) returns (r: H)
    requires rt.Valid() && Terminated(path, 0) && Terminated(mode, 0)
    modifies rt
    ensures rt.Valid() && Scoped(rt, 2)
    ensures r == wfopen(WideArg(rt, Contents(path)), WideArg(rt, Contents(mode)))
  {
    var wpath := Utf8To16(rt, path);
    var wmode := Utf8To16(rt, mode);
    r := wfopen(Contents(wpath), Contents(wmode));
    rt.Free(wmode);
    rt.Free(wpath);
  }

  /** utf8_freopen: _wfreopen on the converted path and mode; the stream is
      handed on untouched. */
  method Freopen<S, H>(rt: Runtime, path: array?<u8>, mode: array?<u8>, stream: S,
                       wfreopen: (Ptr<u16>, Ptr<u16>, S) -> H) returns (r: H)
    requires rt.Valid() && Terminated(path, 0) && Terminated(mode, 0)
    modifies rt
    ensures rt.Valid() && Scoped(rt, 2)
    ensures r == wfreopen(WideArg(rt, Contents(path)), WideArg(rt, Contents(mode)), stream)
  {
    var wpath := Utf8To16(rt, path);
    var wmode := Utf8To16(rt, mode);
    r := wfreopen(Contents(wpath), Contents(wmode), stream);
    rt.Free(wmode);
    rt.Free(wpath);
  }

  /** utf8__stat: _wstat on the converted path; the output record pointer is
      handed on untouched. */
  method Stat<B>(rt: Runtime, path: array?<u8>, buff: B,
                 wstat: (Ptr<u16>, B) -> int32) returns (r: int32)
    requires rt.Valid() && Terminated(path, 0)
    modifies rt
    ensures rt.Valid() && Scoped(rt, 1)
    ensures r == wstat(WideArg(rt, Contents(path)), buff)
  {
    var wpath := Utf8To16(rt, path);
    r := wstat(Contents(wpath), buff);
    rt.Free(wpath);
  }

  /** utf8_getcwd: ignores buff and size, lets _wgetcwd allocate a block of
      the size the current directory needs, converts it to a fresh UTF-8 block
      that the caller owns, and frees the wide block. */
  method GetCwd(rt: Runtime, buff: array?<u8>, size: int32) returns (r: array?<u8>)
    requires rt.Valid()
    modifies rt
    ensures rt.Valid()
    ensures rt.allocs == old(rt.allocs) + 2 && rt.frees == old(rt.frees) + 1
    ensures rt.strayFrees == old(rt.strayFrees)
    ensures Contents(r) == NarrowResult(rt, rt.CwdBlock())
    ensures r != null && rt.Fits(|rt.cwd| + 1, 2) ==> r[..] == Utf16ToUtf8(rt.cwd) + [0]
    ensures !rt.Fits(|rt.cwd| + 1, 2) ==> r != null && r.Length == 0
    ensures r != null ==> fresh(r) && rt.live == old(rt.live) + {r}
    ensures r == null ==> rt.live == old(rt.live)
  {
    var wp := rt.WGetCwd();
    r := Utf16To8(rt, wp);
    rt.Free(wp);
    CStringOfTerminated(rt.cwd, 0, []);
    assert rt.cwd + [0] + [] == rt.cwd + [0];
  }

  /** The first two steps of utf8_getenv: utf8to16 on the name and _wgetenv
      on the result. */
  method LookUp(rt: Runtime, name: array<u8>) returns (wvar: array?<u16>, e: array?<u16>)
    requires rt.Valid() && rt.EnvTerminated() && Terminated(name, 0)
    modifies rt
    ensures rt.Valid() && rt.EnvTerminated()
    ensures rt.allocs == old(rt.allocs) + 1 && rt.frees == old(rt.frees)
    ensures rt.strayFrees == old(rt.strayFrees)
    ensures e == EnvFor(rt, name[..]) && Terminated(e, 0) && (e != null ==> e !in rt.live)
    ensures wvar != null ==> fresh(wvar) && wvar !in old(rt.live) && rt.live == old(rt.live) + {wvar}
    ensures wvar == null ==> rt.live == old(rt.live)
  {
    wvar := Utf8To16(rt, name);
    ConvertedName(rt, name[..], wvar);
    e := rt.WGetEnv(wvar);
  }

  /** A concrete case of getcwd whose wide block cannot be allocated: the
      heap grants at most 2 bytes, the directory "C:" needs 6, and getcwd
      returns a non-NULL block of length 0 instead of NULL. */
  method CwdFailureExample() returns (r: array?<u8>)
    ensures r != null && r.Length == 0
  {
    var rt := new Runtime(2, [0x43, 0x3A], map[]);
    r := GetCwd(rt, null, 0);
  }

  /** utf8_getcwd as evidently intended: NULL when _wgetcwd fails, as C's
      getcwd reports failure; the scoped free(NULL) still runs. */
  method GetCwdFixed(rt: Runtime, buff: array?<u8>, size: int32) returns (r: array?<u8>)
    requires rt.Valid()
    modifies rt
    ensures rt.Valid()
    ensures rt.frees == old(rt.frees) + 1 && rt.strayFrees == old(rt.strayFrees)
    ensures rt.Fits(|rt.cwd| + 1, 2) ==>
      Contents(r) == NarrowResult(rt, rt.CwdBlock()) && rt.allocs == old(rt.allocs) + 2
    ensures !rt.Fits(|rt.cwd| + 1, 2) ==> r == null && rt.allocs == old(rt.allocs) + 1
    ensures r != null ==> r[..] == Utf16ToUtf8(rt.cwd) + [0]
    ensures r != null ==> fresh(r) && rt.live == old(rt.live) + {r}
    ensures r == null ==> rt.live == old(rt.live)
  {
    var wp := rt.WGetCwd();
    if wp == null {
      r := null;
    } else {
      r := Utf16To8(rt, wp);
    }
    rt.Free(wp);
    CStringOfTerminated(rt.cwd, 0, []);
    assert rt.cwd + [0] + [] == rt.cwd + [0];
  }

  /** utf8_getenv as written: converts the name, calls _wgetenv, converts
      what it returns, and frees both the converted name and the pointer
      _wgetenv returned, which points into the C runtime's own table. When the
      variable is unset, utf16to8(NULL) asks calloc for 0 bytes and returns
      the zero-length block it gets instead of NULL. */
  method GetEnv(rt: Runtime, name: array?<u8>) returns (r: array?<u8>)
    requires rt.Valid() && rt.EnvTerminated() && name != null && Terminated(name, 0)
    modifies rt
    ensures rt.Valid()
    ensures rt.allocs == old(rt.allocs) + 2 && rt.frees == old(rt.frees) + 2
    ensures var e := EnvFor(rt, name[..]);
      Contents(r) == NarrowResult(rt, Contents(e)) &&
      rt.strayFrees == old(rt.strayFrees) + (if e == null then 0 else 1)
    ensures EnvFor(rt, name[..]) == null ==> r != null && r.Length == 0
    ensures r != null ==> fresh(r) && rt.live == old(rt.live) + {r}
    ensures r == null ==> rt.live == old(rt.live)
  {
    var wvar, e := LookUp(rt, name);
    r := Utf16To8(rt, e);
    ghost var result, entry := Contents(r), Contents(e);
    rt.Free(e);
    rt.Free(wvar);
    assert Contents(r) == result && Contents(e) == entry;
  }

  /** A concrete case of getenv on an unset variable: with an empty
      environment, getenv("X") returns a non-NULL block of length 0. */
  method UnsetVariableExample() returns (r: array?<u8>)
    ensures r != null && r.Length == 0
  {
    var rt := new Runtime(64, [0x43, 0x3A], map[]);
    var name := new u8[] [0x58, 0];
    assert name[..] == [0x58, 0];
    r := GetEnv(rt, name);
  }

  /** A concrete case of getenv on a set variable: with X=1 in the
      environment, getenv("X") returns "1" and frees the C runtime's own
      block for X, which is not a block the heap handed out. */
  method CrtBlockFreedExample() returns (r: array?<u8>, ghost stray: nat)
    ensures r != null && r[..] == [0x31, 0]
    ensures stray == 1
  {
    var value := new u16[] [0x31, 0];
    assert value[..] == [0x31, 0];
    var rt := new Runtime(64, [0x43, 0x3A], map[[0x58] := value]);
    var name := new u8[] [0x58, 0];
    assert name[..] == [0x58, 0];
    assert CString(name[..], 0) == [0x58];
    assert Utf8ToUtf16([0x58]) == [0x58];
    assert Utf16ToUtf8([0x31]) == [0x31];
    assert CString(value[..], 0) == [0x31];
    assert EnvFor(rt, name[..]) == value;
    r := GetEnv(rt, name);
    stray := rt.strayFrees;
  }

  /** utf8_getenv as evidently intended: NULL for an unset variable, and the
      C runtime's block is left alone. */
  method GetEnvFixed(rt: Runtime, name: array?<u8>) returns (r: array?<u8>)
    requires rt.Valid() && rt.EnvTerminated() && name != null && Terminated(name, 0)
    modifies rt
    ensures rt.Valid()
    ensures rt.frees == old(rt.frees) + 1 && rt.strayFrees == old(rt.strayFrees)
    ensures var e := EnvFor(rt, name[..]);
      (e == null ==> r == null && rt.allocs == old(rt.allocs) + 1) &&
      (e != null ==> Contents(r) == NarrowResult(rt, Contents(e)) && rt.allocs == old(rt.allocs) + 2)
    ensures r != null ==> fresh(r) && rt.live == old(rt.live) + {r}
    ensures r == null ==> rt.live == old(rt.live)
  {
    var wvar, e := LookUp(rt, name);
    if e == null {
      r := null;
      rt.Free(wvar);
    } else {
      r := Utf16To8(rt, e);
      rt.Free(wvar);
    }
  }

  /** utf8_open: the creation mode is 0777 unless flag has O_CREAT set, in
      which case it is the first variadic argument; flag is handed on as it is. */
  method Open(rt: Runtime, path: array?<u8>, flag: int32, varargs: seq<int32>,
              wopen: (Ptr<u16>, int32, int32) -> int32) returns (r: int32)
    requires rt.Valid() && Terminated(path, 0)
    requires Creates(flag) ==> |varargs| >= 1
    modifies rt
    ensures rt.Valid() && Scoped(rt, 1)
    ensures Creates(flag) ==> r == wopen(WideArg(rt, Contents(path)), flag, varargs[0])
    ensures !Creates(flag) ==> r == wopen(WideArg(rt, Contents(path)), flag, DefaultMode)
  {
    var mode := DefaultMode;
    if Bits(flag) & O_CREAT != 0 {
      mode := varargs[0];
    }
    var wpath := Utf8To16(rt, path);
    r := wopen(Contents(wpath), flag, mode);
    rt.Free(wpath);
  }

  /** utf8_system as written: _wsystem on the converted command. */
  method System(rt: Runtime, command: array?<u8>,
                wsystem: Ptr<u16> -> int32) returns (r: int32)
    requires rt.Valid() && Terminated(command, 0)
    modifies rt
    ensures rt.Valid() && Scoped(rt, 1)
    ensures r == wsystem(WideArg(rt, Contents(command)))
  {
    var wcommand := Utf8To16(rt, command);
    r := wsystem(Contents(wcommand));
    rt.Free(wcommand);
  }

  /** utf8_system(NULL) as written: _wsystem receives a zero-length block,
      not NULL, because the length query gives 0 and calloc(0, 2) succeeds. */
  method NullCommandNotForwarded(rt: Runtime, wsystem: Ptr<u16> -> int32) returns (r: int32)
    requires rt.Valid()
    modifies rt
    ensures r == wsystem(Block([]))
  {
    r := System(rt, null, wsystem);
  }

  /** utf8_system as evidently intended: a NULL command, which asks whether a
      command processor exists, reaches _wsystem as NULL. */
  method SystemFixed(rt: Runtime, command: array?<u8>,
                     wsystem: Ptr<u16> -> int32) returns (r: int32)
    requires rt.Valid() && Terminated(command, 0)
    modifies rt
    ensures rt.Valid()
    ensures command == null ==> r == wsystem(Null) && Scoped(rt, 0)
    ensures command != null ==> r == wsystem(WideArg(rt, Contents(command))) && Scoped(rt, 1)
  {
    if command == null {
      r := wsystem(Null);
    } else {
      var wcommand := Utf8To16(rt, command);
      r := wsystem(Contents(wcommand));
      rt.Free(wcommand);
    }
  }

  /** utf8_LoadLibrary: LoadLibraryExW on the converted name, with no file
      handle and a search restricted to the default and user-added
      directories. */
  method LoadLibrary<M>(rt: Runtime, name: array?<u8>,
                        loadLibraryExW: (Ptr<u16>, bv32) -> M) returns (r: M)
    requires rt.Valid() && Terminated(name, 0)
    modifies rt
    ensures rt.Valid() && Scoped(rt, 1)
    ensures r == loadLibraryExW(WideArg(rt, Contents(name)),
                                LOAD_LIBRARY_SEARCH_DEFAULT_DIRS | LOAD_LIBRARY_SEARCH_USER_DIRS)
  {
    var wmodule := Utf8To16(rt, name);
    r := loadLibraryExW(Contents(wmodule),
                        LOAD_LIBRARY_SEARCH_DEFAULT_DIRS | LOAD_LIBRARY_SEARCH_USER_DIRS);
    rt.Free(wmodule);
  }
}
