# PCRE2 regex-object adapter, modelled in Dafny

This project models the adapter in `src/PCRE2Wrapper.cc` that makes a PCRE2 (jpcre2)
pattern behave like a JavaScript `RegExp` object: construction and flag synthesis, the
`test` / `exec` / `match` queries with their `lastIndex` cursor transitions, the argument
list handed to a `replace` callback, `toString`, the property getters and the `lastIndex`
setter, and the (unregistered) `hasModifier` subset test.

The matching engine is foreign code. It is a parameter: `MatchEngine.Engine` holds four
arbitrary total functions (compile, run a query, literal replacement, splice callback
texts). Every adapter contract therefore holds for every engine. A query names the
compiled pattern by its source and the flags it was compiled with, so options such as
i, m and the JIT hint reach the engine on every call, whatever match-time modifier the
call passes.

The object is an immutable `RegexObjects.RegexObject` value that each operation returns
updated, in place of the C++ object's mutable `lastIndex` and `global` fields.

Modules, one file each:

- `wrappers.dfy` (`Wrappers`): `Option` and `Result`.
- `ints.dfy` (`Ints`): the host's ToInt32 and the C++ `uint32_t` cast.
- `engine.dfy` (`MatchEngine`): the engine interface and its match records.
- `flags.dfy` (`Flags`): flag synthesis from a host RegExp and `hasModifier`.
- `regex_object.dfy` (`RegexObjects`): the object state and its construction.
- `matching.dfy` (`Matching`): `test`, `exec` and `match`.
- `replace.dfy` (`Replacing`): `replace` and the callback argument list.
- `introspection.dfy` (`Introspection`): `toString`, the getters and the setter.
- `ecma.dfy` (`Ecma`): the cursor rule of RegExpBuiltinExec (section 22.2.7.2 of ECMA-262).
  It is a reference, compared with the adapter.
- `session.dfy` (`Sessions`): sequences of calls on one object.

Behaviour of the code that a reader might not expect, and that the model keeps:

- A failed `exec` resets `lastIndex` to 0 for every object, global or not (lines 136-137).
  RegExpBuiltinExec leaves the cursor of a non-global regexp alone (`Ecma.ExecDepartsFromEcma`).
- A failed `test` leaves `lastIndex` as it was (lines 109-111). RegExpBuiltinExec resets the
  cursor of a global regexp (`Ecma.TestDepartsFromEcma`).
- A `lastIndex` assigned to a non-global object survives a successful `exec`, because only a
  miss writes it (`Sessions.NonGlobalExecKeepsAssignedCursor`). Without such an assignment
  the cursor stays 0 (`Sessions.NonGlobalCursorStaysZero`).
- `toString` prints the stored flags, including the appended JIT "S" (line 291).
- The `flags` getter appends "g" whenever the object is global (line 323), whether or not the
  engine's modifier string already has one.

## Model

| member | source | states |
|---|---|---|
| Flags.SynthesizeFlags | src/PCRE2Wrapper.cc:63-65 | flags from a host RegExp list i, m, g in that order, each at most once, and contain each letter iff its boolean is set |
| Flags.SynthesizeFlagsUnique | src/PCRE2Wrapper.cc:63-65 | any string over i, m, g that is ordered and has exactly the selected letters is the synthesised string |
| RegexObjects.New | src/PCRE2Wrapper.cc:49-85 | construction: `global` iff 'g' is in the resolved flags, JIT constructor appends exactly "S", cursor 0, object valid; a compile failure yields the engine's diagnostic |
| RegexObjects.NewFromHostRegExp | src/PCRE2Wrapper.cc:56-80 | from a host RegExp: source kept, stored flags are the ordered "img" subsequence plus the JIT hint, `global` equals the RegExp's global flag |
| RegexObjects.JitHintKeepsGlobal | src/PCRE2Wrapper.cc:68-74 | the JIT and non-JIT constructions differ only by one trailing "S" and agree on `global` |
| Flags.HasModifier | src/PCRE2Wrapper.cc:296-311 | true iff every character of the query occurs in the stored flags |
| Flags.IncludesEmpty | src/PCRE2Wrapper.cc:301-308 | the empty query is always included |
| Flags.IncludesDependsOnlyOnCharacters | src/PCRE2Wrapper.cc:303-308 | the answer does not depend on order or repetition of the queried characters |
| Flags.IncludesSynthesized | src/PCRE2Wrapper.cc:296-311 | querying "im" on flags built from a RegExp answers ignoreCase and multiline |
| Matching.Test | src/PCRE2Wrapper.cc:90-114 | starts at the cursor if global else 0; true iff the engine matched; a global match moves the cursor to the first end offset; otherwise the cursor is unchanged; nothing else changes |
| Matching.Exec | src/PCRE2Wrapper.cc:116-169 | no match: null and cursor 0, global or not; a match: cursor to the end offset only when global, the array holds the first match's captures in order and is as long as the number of matches when that is larger (holes after the captures), index is end minus match length, input is the subject, named groups are the first match's |
| Matching.ExecIntended | src/PCRE2Wrapper.cc:146-152 | corrected `exec`: same cursor and fields, but the array is exactly the first match's captures |
| Matching.ExecIntendedAgreesWhenFewMatches | src/PCRE2Wrapper.cc:146-152 | with no more matches than captures (so always without 'g'), `exec` as written equals the corrected one |
| Matching.MatchIndex | src/PCRE2Wrapper.cc:162-164 | the reported index is the match's start when end minus length equals the start and fits in 32 bits |
| Matching.ExecIndexLocatesMatch | src/PCRE2Wrapper.cc:142-165 | when the match is a real span of the subject, `index` is in range and the subject holds the whole match at `index` |
| Matching.WholeMatches | src/PCRE2Wrapper.cc:202-206 | one entry per match, capture 0 of each, in engine order |
| Matching.Match | src/PCRE2Wrapper.cc:171-210 | non-global: exactly `exec`; global: query at offset 0 with "g", every whole match in order, cursor reset to 0 only when there is no match, otherwise object unchanged |
| Matching.CollectQueryKeepsCompileFlags | src/PCRE2Wrapper.cc:183-187 | a global `match` runs the object's compiled pattern (its stored flags reach the engine); only the match-time modifier is replaced by "g" |
| Matching.MatchIgnoresCursor | src/PCRE2Wrapper.cc:185-187 | a global `match` returns the same value whatever the cursor |
| Matching.CursorAdvancesToMatchEnd | src/PCRE2Wrapper.cc:102-144 | after a successful global `test` or `exec` the next query starts at that match's end |
| Matching.TestAgreesWithExec | src/PCRE2Wrapper.cc:102-144 | `test` and `exec` agree on matching and on the cursor after a match; after a miss `exec` has 0 where `test` keeps the cursor |
| Matching.ExecArrayAsWritten | src/PCRE2Wrapper.cc:146-152 | the exec array as written: one slot per reported match or capture, whichever is more, captures first, holes after |
| Matching.ExecArrayHasHoles | src/PCRE2Wrapper.cc:146-152 | three reported matches of a subgroup-free pattern give an array of length 3 with two holes |
| Matching.ExecArrayAgreesWhenFewMatches | src/PCRE2Wrapper.cc:146-152 | with no more matches than captures the array is exactly the captures |
| Replacing.FirstMatchWith | src/PCRE2Wrapper.cc:251-252 | the search returns the least index whose capture vector equals the one sought, or the length if none |
| Replacing.CallbackArgsAsWritten | src/PCRE2Wrapper.cc:250-272 | layout [captures..., offset, subject, named], length captures + 3; the offset is the start of the first match with an equal capture vector, which is never later than the current match |
| Replacing.CallbackArgs | src/PCRE2Wrapper.cc:257-272 | layout [captures..., offset, subject, named], length captures + 3, offset is the current match's own start |
| Replacing.AsWrittenDuplicatesShareOffset | src/PCRE2Wrapper.cc:251-255 | as written, matches with identical capture vectors report the same offset |
| Replacing.AsWrittenAgreesOnDistinctCaptures | src/PCRE2Wrapper.cc:251-255 | as written and corrected argument lists agree when no earlier match has the same captures |
| Replacing.AsWrittenMisreportsRepeatedMatch | src/PCRE2Wrapper.cc:251-255 | two "a" matches in "aa": as written the second reports offset 0, corrected reports 1 |
| Replacing.CallbackOffsetLocatesMatch | src/PCRE2Wrapper.cc:254-264 | the corrected list's offset locates the whole match in the subject (as written, a repeated match is not located) |
| Replacing.CallbackTexts | src/PCRE2Wrapper.cc:249-279 | one callback result per match, each computed from the argument list the code builds for that match |
| Replacing.CallbackTextsCorrected | src/PCRE2Wrapper.cc:249-279 | one callback result per match, each computed from the corrected argument list |
| Replacing.Replace | src/PCRE2Wrapper.cc:212-286 | `replace` never changes the object; literal mode is the engine's substitution at offset 0 with the stored flags; in callback mode the engine splices exactly the per-match callback results for the argument lists the code builds |
| Replacing.ReplaceCorrected | src/PCRE2Wrapper.cc:237-285 | corrected callback mode: each callback receives its own match's start; the object is unchanged and literal mode is as in `Replace` |
| Replacing.ReplaceAgreesOnDistinctCaptures | src/PCRE2Wrapper.cc:249-284 | when no two matches share a capture vector, `replace` as written and corrected give the same result |
| Replacing.ReplaceIgnoresCursor | src/PCRE2Wrapper.cc:229-247 | the result of `replace` does not depend on the cursor |
| Introspection.ToString | src/PCRE2Wrapper.cc:288-294 | `toString` is a slash, the source, a slash and the stored flags (with any JIT hint): its length is theirs plus 2 and each part sits at its position |
| Introspection.ToStringParts | src/PCRE2Wrapper.cc:288-294 | `toString` is slash, source, slash, stored flags; 'g' occurs in the flag part iff the object is global |
| Introspection.ToStringOfNew | src/PCRE2Wrapper.cc:291 | for a fresh object built from a RegExp, `toString` shows the source, the ordered "img" letters and the JIT hint |
| Introspection.PropertyGetter | src/PCRE2Wrapper.cc:313-340 | `source` is the pattern; `flags` is the engine modifier followed by one "g" exactly when global; `lastIndex` is the cursor cast to 32 bits (the cursor itself when below 2^32); `sticky` is false; `global` is the cached bit on valid objects |
| Introspection.BooleanGetters | src/PCRE2Wrapper.cc:333-336 | `global`, `ignoreCase`, `multiline` are the presence of g, i, m in the stored flags |
| Introspection.GettersOfNew | src/PCRE2Wrapper.cc:331-338 | the getters of an object built from a RegExp give back its ignoreCase, multiline, global and source |
| Introspection.PropertySetter | src/PCRE2Wrapper.cc:342-352 | only `lastIndex` is writable: it stores max(ToInt32(v), 0), below 2^31, echoes it, and changes nothing else; other names change nothing |
| Introspection.SetThenGetLastIndex | src/PCRE2Wrapper.cc:327-350 | for a 32-bit value the stored cursor is max(v, 0) and reading it back returns the echo |
| Introspection.SetterIdempotent | src/PCRE2Wrapper.cc:347-350 | writing back the stored cursor leaves the object as it was |
| Ints.ToInt32 | src/PCRE2Wrapper.cc:348 | the result is in the signed 32-bit range and congruent to the input modulo 2^32 |
| Ints.ToUint32 | src/PCRE2Wrapper.cc:328 | the result is below 2^32 and congruent to the input modulo 2^32 |
| Ecma.StartAgreesWithEcma | src/PCRE2Wrapper.cc:127 | the start offset is the one ECMA-262 prescribes |
| Ecma.ExecDepartsFromEcma | src/PCRE2Wrapper.cc:134-144 | `exec`'s cursor differs from ECMA-262 exactly on a miss by a non-global object with a non-zero cursor |
| Ecma.TestDepartsFromEcma | src/PCRE2Wrapper.cc:109-111 | `test`'s cursor differs from ECMA-262 exactly on a miss by a global object with a non-zero cursor |
| Sessions.RunKeepsAllButCursor | src/PCRE2Wrapper.cc:90-352 | any sequence of calls changes only the cursor and keeps the object valid |
| Sessions.NonGlobalCursorStaysZero | src/PCRE2Wrapper.cc:102-144 | a non-global object with cursor 0 keeps it at 0 through calls that do not assign it |
| Sessions.NonGlobalExecKeepsAssignedCursor | src/PCRE2Wrapper.cc:136-144 | a successful `exec` on a non-global object leaves an assigned cursor as it was |
| Sessions.ExecIterationExample | src/PCRE2Wrapper.cc:116-169 | a(b)c with "g" over "abcabc": index 0 and cursor 3, then index 3 and cursor 6, then null and cursor 0 |

## Left out

- Host binding machinery (`Init`, accessor registration, `IsConstructCall`, object wrapping, argument conversion to UTF-8): runtime plumbing, not adapter behaviour.
- The engine (jpcre2): compilation, matching, template replacement and the splicing done by the match evaluator are foreign code. They are fields of `MatchEngine.Engine`.
- `test` asks the engine for end offsets only. The model's engine always returns full match records and `test` ignores the captures; the request flags are an optimisation.
- `hasModifier` is not registered on the prototype (lines 20-25). It is modelled as a pure method over the stored flags.
- Invoking the host callback and converting its return value: the callback is a total function from the argument list to a string. A callback that throws is not modelled.
- Error propagation of host exceptions, the `new[]`/`delete[]` of the argument vector and the dangling pointers at lines 220, 233 and 282: memory concerns, not behaviour.
- Offsets are character offsets in a `seq<char>`, not UTF-8 byte offsets.
- Host RegExp flags other than ignoreCase, multiline and global (sticky, unicode, dotAll) are ignored by the source and absent from `RegexObjects.CtorArg`.
- `exec` exposes the named groups under both `groups` and `named`; the two keys share one object, modelled as one field.
- Introspection.PropertySetter: host values that are not integral numbers (fractions, NaN, strings) are not modelled; ToInt32 is applied to integers only.
- Replacing.Replace: the literal-mode result and the spliced text are the engine's; the contract states only what the adapter controls.

## Findings

| source | as written | input that shows it | evidently intended | confidence | as-written member | corrected member |
|---|---|---|---|---|---|---|
| src/PCRE2Wrapper.cc:146-152 | the `exec` array is allocated with one slot per match the engine reported, but only the first match's captures are stored | a global object for pattern `a` on "aaa": the engine reports 3 matches, so the array has length 3 with holes at 1 and 2 | an array of exactly the first match's captures | medium, not executed | Matching.Exec (shown by Matching.ExecArrayHasHoles) | Matching.ExecIntended |
| src/PCRE2Wrapper.cc:251-255 | the callback offset is the start of the first match whose capture vector equals the current one | a global `replace` of `a` in "aa" with a callback: the second call receives offset 0 | each match's own start offset | high, not executed | Replacing.Replace with Replacing.CallbackArgsAsWritten (shown by Replacing.AsWrittenMisreportsRepeatedMatch) | Replacing.ReplaceCorrected with Replacing.CallbackArgs |
