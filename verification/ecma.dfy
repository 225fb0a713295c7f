/**
 * Reference cursor semantics of RegExpBuiltinExec (section 22.2.7.2 of ECMA-262) for a
 * non-sticky regular expression, and where the adapter's `test` and `exec` depart from it.
 * `test` in ECMA-262 is `exec` followed by a null check, so both share one cursor rule.
 */
module Ecma {
  import opened Wrappers
  import opened MatchEngine
  import opened RegexObjects
  import opened Matching

  /** The offset a search starts at: lastIndex for a global regexp, otherwise 0. */
  function EcmaStart(global: bool, lastIndex: nat): nat {
    if global then lastIndex else 0
  }

  /** lastIndex after one search that ended at `matchEnd` (None: no match). A non-global
      regexp never writes it; a global one moves it to the match end or resets it to 0. */
  function EcmaCursorAfter(global: bool, lastIndex: nat, matchEnd: Option<nat>): nat {
    if !global then lastIndex
    else if matchEnd.Some? then matchEnd.value
    else 0
  }

  /** The first match's end offset, if any. */
  function FirstEnd(ms: seq<MatchRecord>): Option<nat> {
    if |ms| == 0 then None else Some(ms[0].end)
  }

  /** The adapter's start offset is the one ECMA-262 prescribes. */
  lemma StartAgreesWithEcma(o: RegexObject, subject: string)
    ensures CursorQuery(o, subject).start == EcmaStart(o.global, o.lastIndex)
  {
  }

  /** `exec` departs from ECMA-262 exactly when a non-global object with a non-zero cursor
      finds no match: the adapter resets the cursor, ECMA-262 leaves it. */
  lemma ExecDepartsFromEcma(o: RegexObject, subject: string, engine: Engine)
    ensures var ms := engine.run(CursorQuery(o, subject));
      Exec(o, subject, engine).obj.lastIndex != EcmaCursorAfter(o.global, o.lastIndex, FirstEnd(ms))
      <==> !o.global && |ms| == 0 && o.lastIndex != 0
  {
  }

  /** `test` departs from ECMA-262 exactly when a global object with a non-zero cursor
      finds no match: ECMA-262 resets the cursor, the adapter leaves it. */
  lemma TestDepartsFromEcma(o: RegexObject, subject: string, engine: Engine)
    ensures var ms := engine.run(CursorQuery(o, subject));
      Test(o, subject, engine).obj.lastIndex != EcmaCursorAfter(o.global, o.lastIndex, FirstEnd(ms))
      <==> o.global && |ms| == 0 && o.lastIndex != 0
  {
  }
}
