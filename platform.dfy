/** The parts of the platform the shim calls into: the C runtime's heap, its
    wide-character directory and environment queries, and the two Win32 code
    page converters. Only what the shim relies on is modelled.

    The heap keeps ghost books of its own: every allocation request, every
    free(), the set of blocks handed out and not yet released, and the number
    of free() calls on a pointer that was not such a block. */
module Platform {
  import opened Unicode

  /** What a callee receives for a pointer argument: NULL, or the units of the
      block the pointer addresses. */
  datatype Ptr<T> = Null | Block(units: seq<T>)

  function Contents<T>(p: array?<T>): Ptr<T>
    reads p
  {
    if p == null then Null else Block(p[..])
  }

  /** The text of a NUL-terminated string: the units before the first nul
      (all of them if there is none). */
  function CString<T(==)>(s: seq<T>, nul: T): (r: seq<T>)
    ensures r <= s && nul !in r
    ensures |r| < |s| ==> s[|r|] == nul
  {
    if s == [] || s[0] == nul then [] else [s[0]] + CString(s[1..], nul)
  }

  /** A text followed by its terminator reads back as that text, whatever lies
      beyond the terminator. */
  lemma {:induction false} CStringOfTerminated<T>(text: seq<T>, nul: T, rest: seq<T>)
    requires nul !in text
    ensures CString(text + [nul] + rest, nul) == text
  {
    if text != [] {
      assert text[0] in text;
      assert (text + [nul] + rest)[1..] == text[1..] + [nul] + rest;
      CStringOfTerminated(text[1..], nul, rest);
    }
  }

  /** The C contract of a string argument: NULL or NUL-terminated. */
  predicate Terminated<T(==)>(p: array?<T>, nul: T)
    reads p
  {
    p != null ==> nul in p[..]
  }

  // ------------------------------------------------------ code page converters

  /** The units MultiByteToWideChar(CP_UTF8, 0, src, -1, ...) produces: with
      length -1 the terminator is converted too, so the output is the
      transcoded text followed by a zero unit. A NULL source is an invalid
      parameter and produces nothing. */
  function WideImage(src: Ptr<u8>): (r: seq<u16>)
    ensures r == [] <==> src.Null?
    ensures src.Block? ==> r[|r| - 1] == 0
  {
    match src
    case Null => []
    case Block(s) => Utf8ToUtf16(CString(s, 0)) + [0]
  }

  /** The bytes WideCharToMultiByte(CP_UTF8, 0, src, -1, ...) produces. */
  function NarrowImage(src: Ptr<u16>): (r: seq<u8>)
    ensures r == [] <==> src.Null?
    ensures src.Block? ==> r[|r| - 1] == 0
  {
    match src
    case Null => []
    case Block(w) => Utf16ToUtf8(CString(w, 0)) + [0]
  }

  /** A converted string is a C string again: it ends in a zero unit, and that
      zero is its first, so reading it back stops exactly after the text. */
  lemma WideImageIsCString(s: seq<u8>)
    ensures var w := WideImage(Block(s));
      |w| > 0 && w[|w| - 1] == 0 && CString(w, 0) == Utf8ToUtf16(CString(s, 0))
  {
    var text := Utf8ToUtf16(CString(s, 0));
    Utf8ToUtf16KeepsNoNul(CString(s, 0));
    CStringOfTerminated(text, 0, []);
    assert text + [0] + [] == text + [0];
  }

  lemma NarrowImageIsCString(w: seq<u16>)
    ensures var s := NarrowImage(Block(w));
      |s| > 0 && s[|s| - 1] == 0 && CString(s, 0) == Utf16ToUtf8(CString(w, 0))
  {
    var text := Utf16ToUtf8(CString(w, 0));
    Utf16ToUtf8KeepsNoNul(CString(w, 0));
    CStringOfTerminated(text, 0, []);
    assert text + [0] + [] == text + [0];
  }

  /** Converting a well-formed NUL-terminated UTF-8 string to UTF-16 and the
      result back to UTF-8 gives the original string and its terminator. */
  lemma ImageRoundTrip(text: seq<u8>, rest: seq<u8>)
    requires 0 !in text && WellFormed8(text)
    ensures NarrowImage(Block(WideImage(Block(text + [0] + rest)))) == text + [0]
  {
    CStringOfTerminated(text, 0, rest);
    WideImageIsCString(text + [0] + rest);
    RoundTrip8(text);
  }

  /** MultiByteToWideChar(CP_UTF8, 0, src, -1, dst, cap). With cap == 0 it only
      reports the number of units the conversion needs, terminator included
      (0 for a NULL source). Otherwise it writes the conversion to the front of
      dst and returns its length when that fits in cap units, and returns 0
      when it does not. */
  method MultiByteToWideChar(src: array?<u8>, dst: array?<u16>, cap: nat) returns (n: nat)
    requires Terminated(src, 0)
    requires cap > 0 ==> dst != null && cap <= dst.Length
    modifies dst
    ensures var w := WideImage(Contents(src));
      n == (if cap == 0 || |w| <= cap then |w| else 0)
    ensures var w := WideImage(Contents(src));
      dst != null ==>
        if cap > 0 && |w| <= cap then dst[..] == w + old(dst[|w|..]) else dst[..] == old(dst[..])
  {
    var w := WideImage(Contents(src));
    if cap == 0 {
      n := |w|;
    } else if |w| <= cap {
      forall i | 0 <= i < |w| {
        dst[i] := w[i];
      }
      n := |w|;
    } else {
      n := 0;
    }
  }

  /** WideCharToMultiByte(CP_UTF8, 0, src, -1, dst, cap, NULL, NULL), the same
      protocol in the other direction. */
  method WideCharToMultiByte(src: array?<u16>, dst: array?<u8>, cap: nat) returns (n: nat)
    requires Terminated(src, 0)
    requires cap > 0 ==> dst != null && cap <= dst.Length
    modifies dst
    ensures var s := NarrowImage(Contents(src));
      n == (if cap == 0 || |s| <= cap then |s| else 0)
    ensures var s := NarrowImage(Contents(src));
      dst != null ==>
        if cap > 0 && |s| <= cap then dst[..] == s + old(dst[|s|..]) else dst[..] == old(dst[..])
  {
    var s := NarrowImage(Contents(src));
    if cap == 0 {
      n := |s|;
    } else if |s| <= cap {
      forall i | 0 <= i < |s| {
        dst[i] := s[i];
      }
      n := |s|;
    } else {
      n := 0;
    }
  }

  // ------------------------------------------------------------- C runtime

  /** The C runtime as the shim sees it. */
  class Runtime {
    /** The largest request, in bytes, the heap can satisfy; a larger request
        makes the allocator return NULL. A request of 0 bytes succeeds with a
        zero-length block, as the Microsoft C runtime's does. */
    const maxBlock: nat
    /** The process's current directory, without terminator. */
    const cwd: seq<u16>
    /** The wide environment table: each value is a NUL-terminated block that
        the C runtime owns; _wgetenv hands out pointers into it. */
    const environ: map<seq<u16>, array<u16>>

    /** Blocks handed out by the heap and not yet freed. */
    ghost var live: set<object>
    /** Allocation requests made, successful or not. */
    ghost var allocs: nat
    /** Calls of free(), NULL included. */
    ghost var frees: nat
    /** Calls of free() on a non-NULL pointer that is not a live block. */
    ghost var strayFrees: nat

    /** The heap's invariant: the directory has no embedded NUL, and no block
        of the environment table is ever a block the heap handed out. */
    ghost predicate Valid()
      reads this
    {
      0 !in cwd && environ.Values !! live
    }

    /** Every string of the environment table is NUL-terminated. */
    ghost predicate EnvTerminated()
      reads environ.Values
    {
      forall k :: k in environ ==> 0 in environ[k][..]
    }

    constructor (maxBlock: nat, cwd: seq<u16>, environ: map<seq<u16>, array<u16>>)
      requires 0 !in cwd
      requires forall k :: k in environ ==> 0 in environ[k][..]
      ensures Valid() && EnvTerminated()
      ensures this.maxBlock == maxBlock && this.cwd == cwd && this.environ == environ
      ensures live == {} && allocs == 0 && frees == 0 && strayFrees == 0
    {
      this.maxBlock := maxBlock;
      this.cwd := cwd;
      this.environ := environ;
      live := {};
      allocs, frees, strayFrees := 0, 0, 0;
    }

    predicate Fits(count: nat, size: nat) {
      count * size <= maxBlock
    }

    /** calloc(count, size): a fresh block of count zeroed elements, or NULL
        when the request does not fit. */
    method Calloc<T>(count: nat, size: nat, zero: T) returns (p: array?<T>)
      requires Valid()
      modifies this
      ensures Valid()
      ensures allocs == old(allocs) + 1 && frees == old(frees) && strayFrees == old(strayFrees)
      ensures p == null <==> !Fits(count, size)
      ensures p != null ==> fresh(p) && p !in old(live) && p[..] == seq(count, _ => zero)
      ensures p != null ==> live == old(live) + {p}
      ensures p == null ==> live == old(live)
    {
      allocs := allocs + 1;
      if Fits(count, size) {
        p := new T[count](_ => zero);
        live := live + {p};
      } else {
        p := null;
      }
    }

    /** free(p): releases a live block; free(NULL) does nothing; freeing
        anything else is recorded as a stray free. */
    method Free<T>(p: array?<T>)
      requires Valid()
      modifies this
      ensures Valid()
      ensures allocs == old(allocs) && frees == old(frees) + 1
      ensures p != null && p in old(live) ==>
        live == old(live) - {p} && strayFrees == old(strayFrees)
      ensures p == null ==> live == old(live) && strayFrees == old(strayFrees)
      ensures p != null && p !in old(live) ==>
        live == old(live) && strayFrees == old(strayFrees) + 1
    {
      frees := frees + 1;
      if p != null {
        if p in live {
          live := live - {p};
        } else {
          strayFrees := strayFrees + 1;
        }
      }
    }

    /** The wide current-directory string _wgetcwd(NULL, 0) allocates, when the
        allocation fits. */
    function CwdBlock(): Ptr<u16> {
      if Fits(|cwd| + 1, 2) then Block(cwd + [0]) else Null
    }

    /** _wgetcwd(NULL, 0): allocates a block just large enough for the current
        directory and its terminator and fills it; NULL if that fails. The
        caller owns the block. */
    method WGetCwd() returns (wp: array?<u16>)
      requires Valid()
      modifies this
      ensures Valid()
      ensures allocs == old(allocs) + 1 && frees == old(frees) && strayFrees == old(strayFrees)
      ensures Contents(wp) == CwdBlock()
      ensures wp != null ==> fresh(wp) && wp !in old(live) && live == old(live) + {wp}
      ensures wp == null ==> live == old(live)
    {
      var s := cwd + [0];
      wp := Calloc(|s|, 2, 0 as u16);
      if wp != null {
        forall i | 0 <= i < |s| {
          wp[i] := s[i];
        }
      }
    }

    /** The table entry for a variable name's text, NULL when it is unset. */
    function EnvEntry(key: seq<u16>): array?<u16> {
      if key in environ then environ[key] else null
    }

    /** _wgetenv(name): a pointer into the environment table, owned by the C
        runtime, for the text before the name's terminator; NULL when that
        variable is unset. Allocates nothing. The name must be a C string. A
        NULL name is an invalid parameter: it gives NULL only when the
        invalid-parameter handler lets execution continue, and the default
        handler ends the process instead. */
    method WGetEnv(name: array?<u16>) returns (e: array?<u16>)
      requires Valid() && EnvTerminated() && Terminated(name, 0)
      ensures e == (if name == null then null else EnvEntry(CString(name[..], 0)))
      ensures e != null ==> e in environ.Values && e !in live && Terminated(e, 0)
    {
      var key := if name == null then [] else CString(name[..], 0);
      if name != null && key in environ {
        e := environ[key];
        assert e in environ.Values;
      } else {
        e := null;
      }
    }
  }
}
