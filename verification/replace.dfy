/** `replace`: literal-template mode and callback mode, with the argument list the
    callback receives for each match. */
module Replacing {
  import opened Ints
  import opened MatchEngine
  import opened RegexObjects

  /** One argument passed to the replacement callback. */
  datatype Arg = Text(s: string) | Offset(n: nat) | Named(groups: map<string, string>)

  /** The replacement, decided once at the call boundary: a template the engine expands,
      or a callback from the argument list to the replacement text. */
  datatype Replacement = Literal(template: string) | Callback(fn: seq<Arg> -> string)

  /** Index of the first match whose capture vector equals `caps` (|ms| when none does). */
  function FirstMatchWith(ms: seq<MatchRecord>, caps: seq<string>): (k: nat)
    ensures k <= |ms|
    ensures k < |ms| ==> ms[k].Captures() == caps
    ensures forall j :: 0 <= j < k ==> ms[j].Captures() != caps
  {
    if |ms| == 0 then 0
    else if ms[0].Captures() == caps then 0
    else 1 + FirstMatchWith(ms[1..], caps)
  }

  /** The argument list for match `i`: its captures, then an offset, the subject and
      the match's named captures. */
  function ArgsWithOffset(m: MatchRecord, offset: nat, subject: string): seq<Arg> {
    seq(|m.Captures()|, k requires 0 <= k < |m.Captures()| => Text(m.Captures()[k]))
      + [Offset(ToUint32(offset)), Text(subject), Named(m.named)]
  }

  /**
   * The callback arguments for match `i`, as written: the offset is taken from the first
   * match whose capture vector equals match `i`'s, found by searching the capture vectors.
   */
  function CallbackArgsAsWritten(ms: seq<MatchRecord>, i: nat, subject: string): (args: seq<Arg>)
    requires i < |ms|
    ensures |args| == |ms[i].Captures()| + 3
    ensures forall k :: 0 <= k < |ms[i].Captures()| ==> args[k] == Text(ms[i].Captures()[k])
    ensures var j := FirstMatchWith(ms, ms[i].Captures());
      j <= i && args[|args| - 3] == Offset(ToUint32(ms[j].start))
    ensures args[|args| - 2] == Text(subject)
    ensures args[|args| - 1] == Named(ms[i].named)
  {
    var j := FirstMatchWith(ms, ms[i].Captures());
    ArgsWithOffset(ms[i], ms[j].start, subject)
  }

  /** The callback arguments for match `i`, reporting that match's own start offset. */
  function CallbackArgs(ms: seq<MatchRecord>, i: nat, subject: string): (args: seq<Arg>)
    requires i < |ms|
    ensures |args| == |ms[i].Captures()| + 3
    ensures forall k :: 0 <= k < |ms[i].Captures()| ==> args[k] == Text(ms[i].Captures()[k])
    ensures args[|args| - 3] == Offset(ToUint32(ms[i].start))
    ensures args[|args| - 2] == Text(subject)
    ensures args[|args| - 1] == Named(ms[i].named)
  {
    ArgsWithOffset(ms[i], ms[i].start, subject)
  }

  /** As written, two matches with identical capture vectors report the same offset. */
  lemma AsWrittenDuplicatesShareOffset(ms: seq<MatchRecord>, i: nat, j: nat, subject: string)
    requires j < i < |ms|
    requires ms[j].Captures() == ms[i].Captures()
    ensures CallbackArgsAsWritten(ms, i, subject)[|ms[i].Captures()|]
         == CallbackArgsAsWritten(ms, j, subject)[|ms[j].Captures()|]
  {
  }

  /** When no earlier match has the same capture vector, the search finds match `i`
      itself and the two definitions agree. */
  lemma AsWrittenAgreesOnDistinctCaptures(ms: seq<MatchRecord>, i: nat, subject: string)
    requires i < |ms|
    requires forall j :: 0 <= j < i ==> ms[j].Captures() != ms[i].Captures()
    ensures CallbackArgsAsWritten(ms, i, subject) == CallbackArgs(ms, i, subject)
  {
    var j := FirstMatchWith(ms, ms[i].Captures());
    assert j == i;
  }

  /** Replacing "a" in "aa": both matches capture ["a"], so as written the second match
      reports offset 0, where it starts at 1. */
  lemma AsWrittenMisreportsRepeatedMatch()
    ensures var ms := [MatchRecord(0, 1, "a", [], map[]), MatchRecord(1, 2, "a", [], map[])];
      && CallbackArgsAsWritten(ms, 1, "aa")[1] == Offset(0)
      && CallbackArgs(ms, 1, "aa")[1] == Offset(1)
  {
    var ms := [MatchRecord(0, 1, "a", [], map[]), MatchRecord(1, 2, "a", [], map[])];
    assert FirstMatchWith(ms, ms[1].Captures()) == 0;
  }

  /** The reported offset locates the match in the subject when the match is a real span
      of it and the subject is shorter than 2^32. */
  lemma CallbackOffsetLocatesMatch(ms: seq<MatchRecord>, i: nat, subject: string)
    requires i < |ms| && Consistent(ms[i], subject) && |subject| < TWO_32
    ensures var args := CallbackArgs(ms, i, subject);
      && args[|args| - 3].Offset?
      && var off := args[|args| - 3].n;
      && off + |ms[i].whole| <= |subject|
      && subject[off..off + |ms[i].whole|] == ms[i].whole
  {
  }

  /** The callback's return value for every match, in order, called with the argument
      lists the code builds. */
  function CallbackTexts(ms: seq<MatchRecord>, subject: string, fn: seq<Arg> -> string): (texts: seq<string>)
    ensures |texts| == |ms|
    ensures forall i :: 0 <= i < |ms| ==> texts[i] == fn(CallbackArgsAsWritten(ms, i, subject))
  {
    seq(|ms|, i requires 0 <= i < |ms| => fn(CallbackArgsAsWritten(ms, i, subject)))
  }

  /** The callback's return value for every match, each called with its own start offset. */
  function CallbackTextsCorrected(ms: seq<MatchRecord>, subject: string, fn: seq<Arg> -> string): (texts: seq<string>)
    ensures |texts| == |ms|
    ensures forall i :: 0 <= i < |ms| ==> texts[i] == fn(CallbackArgs(ms, i, subject))
  {
    seq(|ms|, i requires 0 <= i < |ms| => fn(CallbackArgs(ms, i, subject)))
  }

  /** The engine request of `replace`: the object's compiled pattern at offset 0, with the
      stored flags as match-time modifier. */
  function ReplaceQuery(o: RegexObject, subject: string): Query {
    Query(o.pattern, o.flags, subject, 0, o.flags)
  }

  /**
   * `replace`: a literal template goes to the engine's own substitution; a callback is
   * called once per match the engine finds, with the argument list the code builds, and
   * its return values are spliced in. Neither mode reads or writes the cursor.
   */
  function Replace(o: RegexObject, subject: string, replacement: Replacement, engine: Engine): (r: (RegexObject, string))
    ensures r.0 == o
    ensures replacement.Literal? ==>
      r.1 == engine.replaceLiteral(ReplaceQuery(o, subject), replacement.template)
    ensures replacement.Callback? ==>
      var q := ReplaceQuery(o, subject);
      var ms := engine.run(q);
      exists texts: seq<string> ::
        && |texts| == |ms|
        && (forall i :: 0 <= i < |ms| ==> texts[i] == replacement.fn(CallbackArgsAsWritten(ms, i, subject)))
        && r.1 == engine.splice(q, texts)
  {
    var q := ReplaceQuery(o, subject);
    match replacement
    case Literal(t) => (o, engine.replaceLiteral(q, t))
    case Callback(fn) => (o, engine.splice(q, CallbackTexts(engine.run(q), subject, fn)))
  }

  /** `replace` with each callback receiving its own match's start offset, as evidently
      intended. Literal mode is unchanged. */
  function ReplaceCorrected(o: RegexObject, subject: string, replacement: Replacement, engine: Engine): (r: (RegexObject, string))
    ensures r.0 == o
    ensures replacement.Literal? ==> r == Replace(o, subject, replacement, engine)
    ensures replacement.Callback? ==>
      var q := ReplaceQuery(o, subject);
      var ms := engine.run(q);
      exists texts: seq<string> ::
        && |texts| == |ms|
        && (forall i :: 0 <= i < |ms| ==> texts[i] == replacement.fn(CallbackArgs(ms, i, subject)))
        && r.1 == engine.splice(q, texts)
  {
    var q := ReplaceQuery(o, subject);
    match replacement
    case Literal(t) => (o, engine.replaceLiteral(q, t))
    case Callback(fn) => (o, engine.splice(q, CallbackTextsCorrected(engine.run(q), subject, fn)))
  }

  /** No two matches with the same capture vector. */
  predicate DistinctCaptures(ms: seq<MatchRecord>) {
    forall i, j :: 0 <= j < i < |ms| ==> ms[j].Captures() != ms[i].Captures()
  }

  /** When no two matches share a capture vector, `replace` as written and corrected
      produce the same text. */
  lemma ReplaceAgreesOnDistinctCaptures(o: RegexObject, subject: string, replacement: Replacement, engine: Engine)
    requires DistinctCaptures(engine.run(ReplaceQuery(o, subject)))
    ensures Replace(o, subject, replacement, engine) == ReplaceCorrected(o, subject, replacement, engine)
  {
    if replacement.Callback? {
      var ms := engine.run(ReplaceQuery(o, subject));
      var fn := replacement.fn;
      forall i | 0 <= i < |ms|
        ensures CallbackArgsAsWritten(ms, i, subject) == CallbackArgs(ms, i, subject)
      {
        AsWrittenAgreesOnDistinctCaptures(ms, i, subject);
      }
      assert CallbackTexts(ms, subject, fn) == CallbackTextsCorrected(ms, subject, fn);
    }
  }

  /** The cursor does not influence `replace`: objects that differ only in `lastIndex`
      produce the same text. */
  lemma ReplaceIgnoresCursor(o: RegexObject, subject: string, replacement: Replacement, engine: Engine, a: nat)
    ensures Replace(o.(lastIndex := a), subject, replacement, engine).1 == Replace(o, subject, replacement, engine).1
  {
  }
}
