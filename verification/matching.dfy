/** The single-match queries `test` and `exec` and the collect-all `match`, with the
    cursor (`lastIndex`) transitions each performs. */
module Matching {
  import opened Wrappers
  import opened Ints
  import opened MatchEngine
  import opened RegexObjects

  /** Where `test` and `exec` start: the cursor for a global object, otherwise offset 0. */
  function CursorStart(o: RegexObject): nat {
    if o.global then o.lastIndex else 0
  }

  /** The engine request `test` and `exec` make: the object's compiled pattern, starting
      at the cursor, with the stored flags as match-time modifier. */
  function CursorQuery(o: RegexObject, subject: string): Query {
    Query(o.pattern, o.flags, subject, CursorStart(o), o.flags)
  }

  /** The engine request of a global `match`: the object's compiled pattern at offset 0,
      with the bare "g" as match-time modifier. */
  function CollectQuery(o: RegexObject, subject: string): Query {
    Query(o.pattern, o.flags, subject, 0, "g")
  }

  /** Two objects that differ at most in their cursor. */
  predicate SameButCursor(a: RegexObject, b: RegexObject) {
    a == b.(lastIndex := a.lastIndex)
  }

  datatype TestOutcome = TestOutcome(obj: RegexObject, matched: bool)

  /** `test`: one match attempt from the cursor; a global object's cursor moves to the
      first match's end on success and is left alone on failure. */
  function Test(o: RegexObject, subject: string, engine: Engine): (r: TestOutcome)
    ensures var ms := engine.run(CursorQuery(o, subject));
      && SameButCursor(r.obj, o)
      && (r.matched <==> |ms| > 0)
      && (r.matched && o.global ==> r.obj.lastIndex == ms[0].end)
      && (!r.matched || !o.global ==> r.obj.lastIndex == o.lastIndex)
  {
    var ms := engine.run(CursorQuery(o, subject));
    var matched := |ms| > 0;
    if matched && o.global then TestOutcome(o.(lastIndex := ms[0].end), true)
    else TestOutcome(o, matched)
  }

  /** The value `exec` returns on a match: the host array of numbered captures (`None`
      marks a hole), the start offset, the subject and the named captures. */
  datatype ExecResult = ExecResult(groups: seq<Option<string>>, index: int, input: string, named: map<string, string>)

  datatype ExecOutcome = ExecOutcome(obj: RegexObject, result: Option<ExecResult>)

  /** The start offset `exec` reports: the end offset less the whole match's length, as a
      signed 32-bit value. */
  function MatchIndex(m: MatchRecord): (index: int)
    ensures m.end < TWO_31 && m.end - |m.whole| == m.start ==> index == m.start
  {
    ToInt32(m.end - |m.whole|)
  }

  /**
   * The array `exec` builds, as written: it is allocated with one slot per match the engine
   * reported (`resultCount`) but only the first match's captures are stored, so any slot
   * past the captures is a hole (`None`).
   */
  function ExecArrayAsWritten(resultCount: nat, captures: seq<string>): (a: seq<Option<string>>)
    ensures |a| == if resultCount > |captures| then resultCount else |captures|
    ensures forall k :: 0 <= k < |captures| ==> a[k] == Some(captures[k])
    ensures forall k :: |captures| <= k < |a| ==> a[k] == None
  {
    seq(if resultCount > |captures| then resultCount else |captures|,
        k requires 0 <= k => if k < |captures| then Some(captures[k]) else None)
  }

  /** Each capture as a present array slot. */
  function Present(captures: seq<string>): (a: seq<Option<string>>)
    ensures |a| == |captures|
    ensures forall k :: 0 <= k < |captures| ==> a[k] == Some(captures[k])
  {
    seq(|captures|, k requires 0 <= k < |captures| => Some(captures[k]))
  }

  /** `exec`: one match attempt from the cursor. No match resets the cursor to 0 (global
      or not) and yields null; a match moves a global object's cursor to its end and
      yields the first match's captures, in an array sized by the number of matches. */
  function Exec(o: RegexObject, subject: string, engine: Engine): (r: ExecOutcome)
    ensures var ms := engine.run(CursorQuery(o, subject));
      && SameButCursor(r.obj, o)
      && (r.result.None? <==> |ms| == 0)
      && (r.result.None? ==> r.obj.lastIndex == 0)
      && (r.result.Some? ==>
            && r.obj.lastIndex == (if o.global then ms[0].end else o.lastIndex)
            && r.result.value.groups == ExecArrayAsWritten(|ms|, ms[0].Captures())
            && r.result.value.index == MatchIndex(ms[0])
            && r.result.value.input == subject
            && r.result.value.named == ms[0].named)
  {
    var ms := engine.run(CursorQuery(o, subject));
    if |ms| == 0 then
      ExecOutcome(o.(lastIndex := 0), None)
    else
      var first := ms[0];
      var o' := if o.global then o.(lastIndex := first.end) else o;
      var groups := ExecArrayAsWritten(|ms|, first.Captures());
      ExecOutcome(o', Some(ExecResult(groups, MatchIndex(first), subject, first.named)))
  }

  /** `exec` with the array the code evidently intends: exactly the first match's
      captures, with no holes. Everything else is as in `Exec`. */
  function ExecIntended(o: RegexObject, subject: string, engine: Engine): (r: ExecOutcome)
    ensures var ms := engine.run(CursorQuery(o, subject));
      var e := Exec(o, subject, engine);
      && r.obj == e.obj
      && (r.result.None? <==> e.result.None?)
      && (r.result.Some? ==>
            && r.result.value == e.result.value.(groups := r.result.value.groups)
            && |r.result.value.groups| == |ms[0].Captures()|
            && forall k :: 0 <= k < |ms[0].Captures()| ==> r.result.value.groups[k] == Some(ms[0].Captures()[k]))
  {
    var ms := engine.run(CursorQuery(o, subject));
    var e := Exec(o, subject, engine);
    if |ms| == 0 then e
    else ExecOutcome(e.obj, Some(e.result.value.(groups := Present(ms[0].Captures()))))
  }

  /** When the engine reports no more matches than the first match has captures (in
      particular when it reports at most one, as without 'g'), `exec` as written already
      returns the intended array. */
  lemma ExecIntendedAgreesWhenFewMatches(o: RegexObject, subject: string, engine: Engine)
    requires var ms := engine.run(CursorQuery(o, subject));
      |ms| == 0 || |ms| <= |ms[0].Captures()|
    ensures ExecIntended(o, subject, engine) == Exec(o, subject, engine)
  {
    var ms := engine.run(CursorQuery(o, subject));
    if |ms| > 0 {
      ExecArrayAgreesWhenFewMatches(|ms|, ms[0].Captures());
    }
  }

  /** When the engine's first match really is a span of the subject (and offsets fit in
      32 bits), `index` is its start and the subject holds the whole match, the array's
      first entry, there. */
  lemma ExecIndexLocatesMatch(o: RegexObject, subject: string, engine: Engine)
    requires var ms := engine.run(CursorQuery(o, subject));
      |ms| > 0 && Consistent(ms[0], subject) && ms[0].end < TWO_31
    ensures var ms := engine.run(CursorQuery(o, subject));
      var r := Exec(o, subject, engine).result.value;
      && r.groups[0] == Some(ms[0].whole)
      && 0 <= r.index <= r.index + |ms[0].whole| <= |subject|
      && subject[r.index..r.index + |ms[0].whole|] == ms[0].whole
  {
  }

  /** What `match` returns: null, the `exec` result (non-global object), or the list of
      whole matches (global object). */
  datatype MatchValue = NoMatch | Groups(result: ExecResult) | Wholes(matches: seq<string>)

  datatype MatchOutcome = MatchOutcome(obj: RegexObject, value: MatchValue)

  /** Capture 0 of every match, in engine order. */
  function WholeMatches(ms: seq<MatchRecord>): (w: seq<string>)
    ensures |w| == |ms|
    ensures forall k :: 0 <= k < |ms| ==> w[k] == ms[k].whole
  {
    if |ms| == 0 then [] else [ms[0].whole] + WholeMatches(ms[1..])
  }

  /** `match`: a non-global object behaves as `exec`; a global one scans from offset 0 with
      the "g" modifier whatever its cursor, returns every whole match, and resets the
      cursor only when there is none. */
  function Match(o: RegexObject, subject: string, engine: Engine): (r: MatchOutcome)
    ensures !o.global ==>
      var e := Exec(o, subject, engine);
      && r.obj == e.obj
      && r.value == (if e.result.Some? then Groups(e.result.value) else NoMatch)
    ensures o.global ==>
      var ms := engine.run(CollectQuery(o, subject));
      && SameButCursor(r.obj, o)
      && (r.value.NoMatch? <==> |ms| == 0)
      && (r.value.NoMatch? ==> r.obj.lastIndex == 0)
      && (!r.value.NoMatch? ==> r.obj == o && r.value == Wholes(WholeMatches(ms)))
  {
    if !o.global then
      var e := Exec(o, subject, engine);
      MatchOutcome(e.obj, if e.result.Some? then Groups(e.result.value) else NoMatch)
    else
      var ms := engine.run(CollectQuery(o, subject));
      if |ms| == 0 then MatchOutcome(o.(lastIndex := 0), NoMatch)
      else MatchOutcome(o, Wholes(WholeMatches(ms)))
  }

  /** A global `match` runs the object's own compiled pattern: objects whose stored flags
      differ send different requests, although both use the bare "g" at match time. */
  lemma CollectQueryKeepsCompileFlags(o1: RegexObject, o2: RegexObject, subject: string)
    requires o1.flags != o2.flags
    ensures CollectQuery(o1, subject) != CollectQuery(o2, subject)
    ensures CollectQuery(o1, subject).modifier == CollectQuery(o2, subject).modifier == "g"
  {
  }

  /** A global `match` returns the same value whatever the cursor was. */
  lemma MatchIgnoresCursor(o: RegexObject, subject: string, engine: Engine, a: nat, b: nat)
    requires o.global
    ensures Match(o.(lastIndex := a), subject, engine).value == Match(o.(lastIndex := b), subject, engine).value
  {
  }

  /** After a successful global `exec` or `test`, the next `exec` or `test` on the object
      starts where that match ended. */
  lemma CursorAdvancesToMatchEnd(o: RegexObject, subject: string, next: string, engine: Engine)
    requires o.global
    requires |engine.run(CursorQuery(o, subject))| > 0
    ensures CursorQuery(Exec(o, subject, engine).obj, next).start == engine.run(CursorQuery(o, subject))[0].end
    ensures CursorQuery(Test(o, subject, engine).obj, next).start == engine.run(CursorQuery(o, subject))[0].end
  {
  }

  /** `test` and `exec` make the same request and agree on whether it matched; their
      cursors agree on a match, and on a miss `exec` resets to 0 where `test` keeps it. */
  lemma TestAgreesWithExec(o: RegexObject, subject: string, engine: Engine)
    ensures Test(o, subject, engine).matched <==> Exec(o, subject, engine).result.Some?
    ensures Exec(o, subject, engine).obj.lastIndex ==
      (if Test(o, subject, engine).matched then Test(o, subject, engine).obj.lastIndex else 0)
  {
  }

  /** With no more matches than captures the array as written is exactly the captures. */
  lemma ExecArrayAgreesWhenFewMatches(resultCount: nat, captures: seq<string>)
    requires resultCount <= |captures|
    ensures ExecArrayAsWritten(resultCount, captures) == Present(captures)
  {
  }

  /** A global object whose flags make the engine report three matches of a pattern without
      subgroups: the array as written has length 3 and holes at 1 and 2, where the
      captures of the first match number one. */
  lemma ExecArrayHasHoles()
    ensures ExecArrayAsWritten(3, ["a"]) == [Some("a"), None, None]
    ensures |ExecArrayAsWritten(3, ["a"])| != |Present(["a"])|
  {
    assert ExecArrayAsWritten(3, ["a"])[1] == None;
  }
}
