# tjs: UTF-8 shim and relocation signatures, modelled in Dafny

Two small parts of tjs are modelled here.

**The UTF-8 shim** (`extra/utf8fix/fix.c`). It lets code call ANSI-named C runtime functions with UTF-8 strings on Windows, whose native calls take UTF-16.

- Two helpers, `utf8to16` and `utf16to8`, convert in two passes. First they ask the Win32 converter for the output length, terminator included. Then they `calloc` exactly that many zeroed units. Only if that allocation succeeded do they convert into the block, passing the same capacity.
- Eight wrappers convert their string arguments and call the wide-character primitive. They pass every other argument through unchanged and return the primitive's result unchanged, except `utf8_getcwd` and `utf8_getenv`, which convert the wide string they get back with `utf16to8` and return that. A `scoped` cleanup attribute frees each converted block when the wrapper returns; in those two wrappers it also frees the pointer the primitive returned (see Findings).

**The signature grammar** (`tjs.d.ts`). `Compiler.relocate` takes a recipe of signature strings such as `"dd!d"`. Its type-level mappers turn each string into a JavaScript function type. The grammar has:

- one letter per parameter;
- `[...]` for a callback;
- an optional `!` followed by a one-letter result code.

Files:

- `unicode.dfy`: UTF-8 (section 3 of RFC 3629, with the byte ranges of its section 4) and UTF-16 (sections 2.1 and 2.2 of RFC 2781). Encoders, total decoders, well-formedness, and the round-trip lemmas.
- `platform.dfy`: what the shim calls into.
  - `MultiByteToWideChar` and `WideCharToMultiByte` are methods that write into arrays.
  - The C runtime is the class `Runtime`. Its heap keeps ghost counts of allocation requests, `free` calls and stray frees, plus the set of live blocks.
  - `_wgetcwd(NULL, 0)` and `_wgetenv` are methods of `Runtime`.
- `utf8fix.dfy`: the two helpers and the eight wrappers. The natives whose only effect here is their result (`_wfopen`, `_wfreopen`, `_wstat`, `_wopen`, `_wsystem`, `LoadLibraryExW`) are function parameters, so each wrapper's contract names exactly what it hands them.
- `signature.dfy`: `SimpleParameterMapper`, `ParameterMapper`, `ResultMapper`, `CallbackFunctionMapper`, `FunctionMapper` and `Relocated` as functions on strings, plus lemmas.
  - `None` stands for TypeScript's `never` where a mapper produces it.
  - Inside a tuple, `never` makes the whole parameter list `never`.
  - A function type whose result, or one of whose callbacks' argument lists, is `never` is still a function type. Only a `never` parameter list leaves a function that no argument list fits.
  - `NoNever` says that no `never` appears anywhere in a function type: not in its parameter list, not in a callback's arguments, and not in its result.

Where the code departs from the C library's own contracts, the model follows the code:

- C's `getenv` returns NULL for an unset variable, and `system(NULL)` asks whether a command processor exists. In the code, a NULL source makes the converter's length query return 0. `calloc(0, n)` then hands back a non-NULL block of length 0 (the model's heap, like the Microsoft C runtime, grants 0-byte requests). This is what `Utf8To16`, `Utf16To8`, `WideArg` and `NarrowResult` state. The consequences for `getenv` and `system` are under Findings.
- C's `getcwd(buff, size)` fills `buff` with at most `size` bytes and returns NULL on failure. The code ignores both arguments and lets `_wgetcwd` allocate a block of the size the directory needs; so does `GetCwd`. When the narrow allocation fails the result is NULL. When `_wgetcwd` itself fails, `utf16to8(NULL)` returns the non-NULL zero-length block of `calloc(0, 1)`, the same effect as for `getenv` and `system` (see Findings).

## Model

| member | source | states |
|---|---|---|
| `Unicode.Decode8OfEncode8` | extra/utf8fix/fix.c:29-36 | The UTF-8 form of any scalar sequence is well-formed and decodes back to that sequence. |
| `Unicode.Encode8OfDecode8` | extra/utf8fix/fix.c:20-27 | Well-formed UTF-8 is exactly the encoding of what it decodes to. |
| `Unicode.WellFormed8Iff` | extra/utf8fix/fix.c:29-36 | Both directions: a byte sequence is well-formed UTF-8 if and only if it encodes some scalar sequence. |
| `Unicode.Decode16OfEncode16` | extra/utf8fix/fix.c:20-27 | The UTF-16 form of any scalar sequence has no unpaired surrogate and decodes back to that sequence. |
| `Unicode.Encode16OfDecode16` | extra/utf8fix/fix.c:29-36 | Well-formed UTF-16 is exactly the encoding of what it decodes to. |
| `Unicode.WellFormed16Iff` | extra/utf8fix/fix.c:20-27 | Both directions: a unit sequence is well-formed UTF-16 if and only if it encodes some scalar sequence. |
| `Unicode.RoundTrip8` | extra/utf8fix/fix.c:20-36 | For well-formed UTF-8, converting to UTF-16 gives well-formed UTF-16. Converting that back to UTF-8 gives the original bytes. |
| `Unicode.RoundTrip16` | extra/utf8fix/fix.c:20-36 | For well-formed UTF-16, converting to UTF-8 and back gives the original units. |
| `Unicode.Utf8ToUtf16KeepsNoNul` | extra/utf8fix/fix.c:30-31 | UTF-8 text without a NUL converts to UTF-16 text without a NUL. So the appended terminator is the output's first zero. |
| `Unicode.Utf16ToUtf8KeepsNoNul` | extra/utf8fix/fix.c:21-22 | The same from UTF-16 to UTF-8. |
| `Platform.CString` | extra/utf8fix/fix.c:21 | With length -1 the converters read up to the first NUL: the result is a prefix of the input with no NUL in it, and is followed by one when it is shorter than the input. |
| `Platform.WideImageIsCString` | extra/utf8fix/fix.c:30-33 | What the UTF-8 to UTF-16 converter produces for a string ends in a zero unit. That zero is its first, so the result reads back as the converted text. |
| `Platform.NarrowImageIsCString` | extra/utf8fix/fix.c:21-24 | The same for UTF-16 to UTF-8: the output ends in its first zero byte and reads back as the converted text. |
| `Platform.WideImage` | extra/utf8fix/fix.c:30 | What `MultiByteToWideChar` with length -1 produces: nothing for a NULL source; for a string, units ending in the converted terminator. |
| `Platform.NarrowImage` | extra/utf8fix/fix.c:21 | The same for `WideCharToMultiByte`: nothing for NULL; for a string, bytes ending in the converted terminator. |
| `Platform.ImageRoundTrip` | extra/utf8fix/fix.c:20-36 | For a well-formed UTF-8 string with no embedded NUL, converting to UTF-16 and back yields the original string and its terminator, whatever follows the terminator. |
| `Platform.MultiByteToWideChar` | extra/utf8fix/fix.c:30-33 | With capacity 0 it only returns the length needed, terminator included (0 for NULL input). With enough capacity it writes exactly the converted units to the front of the buffer and nothing past them. Otherwise it returns 0 and writes nothing. |
| `Platform.WideCharToMultiByte` | extra/utf8fix/fix.c:21-24 | The same protocol from UTF-16 to UTF-8. |
| `Platform.Runtime.Calloc` | extra/utf8fix/fix.c:15 | Counts one allocation request. It returns NULL exactly when the request does not fit. Otherwise it returns a fresh block of `count` zero elements, which becomes live. |
| `Platform.Runtime.Free` | extra/utf8fix/fix.c:12-13 | Counts one `free`. It releases a live block, ignores NULL, and records any other pointer as a stray free. |
| `Platform.Runtime.WGetCwd` | extra/utf8fix/fix.c:56 | `_wgetcwd(NULL, 0)` allocates exactly the current directory plus its terminator, or returns NULL when that does not fit. The new block is live and owned by the caller. |
| `Platform.Runtime.WGetEnv` | extra/utf8fix/fix.c:62 | For a C-string name, `_wgetenv` returns the runtime's table entry for the text before the terminator, or NULL when that variable is unset; a NULL name gives NULL. A returned block is NUL-terminated and is never a heap block handed out to the shim. |
| `Utf8Fix.WideArg` | extra/utf8fix/fix.c:29-36 | What `utf8to16` returns: NULL exactly when the queried length does not fit the heap, and a zero-length block for a NULL input. |
| `Utf8Fix.NarrowResult` | extra/utf8fix/fix.c:20-27 | What `utf16to8` returns: NULL exactly when the queried length does not fit the heap, and a zero-length block for a NULL input. |
| `Utf8Fix.Utf8To16` | extra/utf8fix/fix.c:29-36 | Makes one allocation request of exactly the queried length and converts with that capacity only when the allocation succeeded. The result is NULL on allocation failure. Otherwise it is a fresh live block holding exactly the converted string and its terminator. |
| `Utf8Fix.Utf16To8` | extra/utf8fix/fix.c:20-27 | The same two-pass protocol from UTF-16 to UTF-8. |
| `Utf8Fix.Fopen` | extra/utf8fix/fix.c:38-42 | `_wfopen` receives the converted path and mode, and its handle is returned unchanged. Two requests and two frees; nothing is left live and nothing is freed twice or stray. |
| `Utf8Fix.Freopen` | extra/utf8fix/fix.c:44-48 | `_wfreopen` receives the converted path and mode with the stream untouched, and its result is returned unchanged. The books balance as for `Fopen`. |
| `Utf8Fix.Stat` | extra/utf8fix/fix.c:50-53 | `_wstat` receives the converted path with `buff` untouched, and its status is returned unchanged. One request, one free, nothing left live. |
| `Utf8Fix.GetCwd` | extra/utf8fix/fix.c:55-58 | `buff` and `size` play no part. The result is the UTF-8 conversion of the dynamically sized wide current directory: for a directory allocated in full, exactly its UTF-8 text and a terminator. The wide block is freed and only the result is left live, for the caller. When `_wgetcwd` cannot allocate, the result is a non-NULL zero-length block. |
| `Utf8Fix.GetCwdFixed` | extra/utf8fix/fix.c:55-58 | Corrected: NULL when `_wgetcwd` fails; otherwise, whenever the result is not NULL, it is exactly the directory's UTF-8 text and a terminator. The scoped `free` still runs once, and only the result is left live. |
| `Utf8Fix.LookUp` | extra/utf8fix/fix.c:61-62 | The name is converted with one allocation request, and `_wgetenv` is asked for the entry of the converted text. The entry is NUL-terminated and not a heap block; the converted name is the only new live block. |
| `Utf8Fix.GetEnv` | extra/utf8fix/fix.c:60-64 | As written: the result is the conversion of `_wgetenv`'s answer for the UTF-16 form of the name's text. Two requests and two frees, with one stray free whenever the variable is set. An unset variable yields a non-NULL zero-length block. |
| `Utf8Fix.GetEnvFixed` | extra/utf8fix/fix.c:60-64 | Corrected: an unset variable yields NULL, the runtime's block is never freed (no stray free), and only the result is left live. |
| `Utf8Fix.Open` | extra/utf8fix/fix.c:66-77 | `_wopen` receives the converted path and `flag` unchanged. The mode is the first variadic argument when `flag & O_CREAT` is set, and 0777 otherwise. The status is returned unchanged and the books balance. |
| `Utf8Fix.System` | extra/utf8fix/fix.c:79-82 | `_wsystem` receives the converted command, and its status is returned unchanged. One request, one free. |
| `Utf8Fix.NullCommandNotForwarded` | extra/utf8fix/fix.c:79-82 | `utf8_system(NULL)` as written: `_wsystem` receives a zero-length block, not NULL. |
| `Utf8Fix.SystemFixed` | extra/utf8fix/fix.c:79-82 | Corrected: a NULL command reaches `_wsystem` as NULL with no allocation. Any other command is handled as in `System`. |
| `Utf8Fix.LoadLibrary` | extra/utf8fix/fix.c:84-89 | `LoadLibraryExW` receives the converted name and the search flags `LOAD_LIBRARY_SEARCH_DEFAULT_DIRS \| LOAD_LIBRARY_SEARCH_USER_DIRS`, and its handle is returned unchanged. The books balance. |
| `Signature.IndexOf` | tjs.d.ts:58 | Template-literal inference stops at the first delimiter: the index returned holds the delimiter, and no earlier position does. |
| `Signature.SimpleParams` | tjs.d.ts:42-49 | An accepted string gives exactly one parameter type per character. |
| `Signature.SimpleParamsSpec` | tjs.d.ts:42-49 | Both directions: the simple grammar accepts a string exactly when every character is a parameter letter. It then maps letter k to parameter k (i/d number, s/w string, v ArrayBuffer, b/p bigint), one each, in order. The empty string gives the empty list. |
| `Signature.Params` | tjs.d.ts:51-59 | An accepted string gives at most one parameter per character, and at least one when it is not empty. |
| `Signature.ParamsOfLetters` | tjs.d.ts:51-57 | On a string of letters the full grammar gives one value parameter per letter, in order. The empty string gives the empty list. |
| `Signature.CallbackGroup` | tjs.d.ts:58 | A `[part]` group, with `part` running up to the first `]`, yields exactly one callback parameter. Its arguments are `part` read by the simple grammar, and the parameters of the rest follow. |
| `Signature.NestedCallbackRejected` | tjs.d.ts:42-49 | The simple grammar has no bracket case, so a `[` inside a callback group makes that callback's arguments `never`. The parameter list is then `never`, or that callback's arguments are. |
| `Signature.ParamsRejectUnknown` | tjs.d.ts:51-59 | A character outside `idswvbp[]` anywhere in a parameter string makes the list `never`, or the arguments of one of its callbacks `never`. |
| `Signature.UnknownInGroup` | tjs.d.ts:58 | A character outside the grammar inside the first `[...]` group makes that callback's arguments `never`, or the whole list `never`. |
| `Signature.UnknownCharRejected` | tjs.d.ts:42-72 | A character outside `idswvbp[]!_` anywhere in a signature puts `never` in the function type: in its parameter list, in a callback's arguments, or in its result. |
| `Signature.Result` | tjs.d.ts:61-65 | Both directions: a result code is accepted exactly when it is one character among `i d b p _`. i/d give number, b/p give bigint and `_` gives void; anything else, `s` and multi-letter codes included, is `never`. |
| `Signature.FunctionOf` | tjs.d.ts:70-72 | A result other than `void` needs a `!` in the signature, and the parameter list has at most one parameter per character. |
| `Signature.FunctionOfSplit` | tjs.d.ts:70-72 | A signature `args!res` with no `!` in `args` splits at that first `!`: parameters from `args`, result from `res`. |
| `Signature.RelocatedOfLetters` | tjs.d.ts:70-76 | For any recipe and any entry whose parameters are plain letters: `a!c` becomes one value parameter per letter of `a`, typed by the letter table, with the result `c` reads as; `a` alone gives the same parameters and a `void` result. |
| `Signature.LinuxRecipe` | tjs.d.ts:74-76 | `Relocated` keeps both keys of the recipe used in linux.js. `"s"` becomes `(string) => void` and `"dd!d"` becomes `(number, number) => number`. |

## Findings

| source | as written | input that shows it | evidently intended | confidence | as-written member | corrected member |
|---|---|---|---|---|---|---|
| extra/utf8fix/fix.c:62 | `wstr e` frees the pointer `_wgetenv` returns, which points into the C runtime's environment table. | `utf8_getenv("X")` with `X=1` set | keep `e` as a plain pointer and do not free it | high; not executed | `Utf8Fix.GetEnv`, shown by `Utf8Fix.CrtBlockFreedExample` | `Utf8Fix.GetEnvFixed` |
| extra/utf8fix/fix.c:21-22 | For an unset variable, `utf16to8(NULL)` gets length 0 and returns the non-NULL zero-length block of `calloc(0, 1)`. | `utf8_getenv("X")` with `X` unset | return NULL | medium: relies on `calloc(0, n)` returning non-NULL, as the Microsoft C runtime's does; not executed | `Utf8Fix.GetEnv`, shown by `Utf8Fix.UnsetVariableExample` | `Utf8Fix.GetEnvFixed` |
| extra/utf8fix/fix.c:56-57 | When `_wgetcwd(NULL, 0)` fails, `utf16to8(NULL)` returns the non-NULL zero-length block of `calloc(0, 1)`, so the failure reads as an empty directory. | `utf8_getcwd(buff, size)` when the directory's block cannot be allocated | return NULL, as C's `getcwd` does on failure | medium: same reliance on `calloc(0, n)`; not executed | `Utf8Fix.GetCwd`, shown by `Utf8Fix.CwdFailureExample` | `Utf8Fix.GetCwdFixed` |
| extra/utf8fix/fix.c:80-81 | `utf8to16(NULL)` hands `_wsystem` a zero-length block instead of NULL, so the "is there a command processor" query reads past the block. | `utf8_system(NULL)` | pass NULL through | medium: same reliance on `calloc(0, n)`; not executed | `Utf8Fix.System`, shown by `Utf8Fix.NullCommandNotForwarded` | `Utf8Fix.SystemFixed` |

## Left out

- Ill-formed input: the decoders read each unit that does not start a well-formed sequence as U+FFFD and skip it. The exact replacement policy of the Windows converters is not modelled, and no property depends on it. Round-trips are stated for well-formed input only.
- The converters' `int` arithmetic: lengths above `INT_MAX` and the resulting failures are not modelled.
- `Platform.MultiByteToWideChar` and `Platform.WideCharToMultiByte`: with a nonzero capacity that is too small, the model writes nothing. Windows may write part of the output, but the shim never passes a capacity smaller than the queried length.
- The effects of the native primitives (opening files, filling the `_stat` record, running the command, loading the library) are outside the model. They are function parameters, and only what they receive and return is stated.
- `LoadLibraryExW`'s `hFile` argument, always NULL here, is not represented. The search-flag constant is checked as an argument and nothing more.
- `Utf8Fix.GetEnv` and `Utf8Fix.GetEnvFixed` require a non-NULL name, because C's `getenv` requires a string. With a NULL name the shim would convert it to a zero-length block, whose lookup the model does not define.
- `Platform.Runtime.WGetEnv` requires a NUL-terminated name, because it reads the name up to its terminator. For a NULL name, an invalid parameter, the model gives NULL. That is what happens only if the C runtime's invalid-parameter handler lets execution continue; the default handler ends the process.
- `_wgetenv` compares names exactly in the model. Windows compares them without regard to case.
- `_wgetcwd` allocates with `malloc`. The model draws that block from the same heap as `calloc`, which changes nothing about ownership.
- The heap's failure rule is a fixed largest-block size: real allocators fail for other reasons too. Every wrapper contract covers both outcomes.
- The order of the scoped frees (reverse order of declaration) is kept in the method bodies, but the ghost books do not record it.
- Concurrency, `errno`, and the `va_list` mechanics: the variadic arguments of `utf8_open` are a sequence, and reading one that is absent is excluded by the requires clause.
- Only literal signature strings are modelled. On the non-literal type `string`, `ParameterMapper` yields `never`, so `FunctionMapper<string>` is `(...args: never) => void`.
- The callback result type `number | void` is fixed and not stored in the model.
- tmp/config.h (build-time redirection of the ANSI names), src/tjs.h (declarations only), test.js and linux.js (driver scripts), the `Compiler` class and the `builtin:io`, `builtin:utf8` and `builtin:utf16` declarations are not part of this model.
- test.js passes object-style recipes. The declared `Record<string, string>` recipe type does not accept them, and they are not modelled.
