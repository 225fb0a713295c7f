/** Sequences of calls on one object, and what stays fixed across them. */
module Sessions {
  import opened Wrappers
  import opened MatchEngine
  import opened RegexObjects
  import opened Matching
  import opened Replacing
  import opened Introspection

  /** One host call on the object. */
  datatype Call =
    | TestCall(subject: string)
    | ExecCall(subject: string)
    | MatchCall(subject: string)
    | ReplaceCall(subject: string, replacement: Replacement)
    | SetLastIndex(value: int)
    | Read(name: string)

  /** The object after one call. */
  function Step(o: RegexObject, c: Call, engine: Engine): RegexObject {
    match c
    case TestCall(s) => Test(o, s, engine).obj
    case ExecCall(s) => Exec(o, s, engine).obj
    case MatchCall(s) => Match(o, s, engine).obj
    case ReplaceCall(s, rep) => Replace(o, s, rep, engine).0
    case SetLastIndex(v) => PropertySetter(o, "lastIndex", v).obj
    case Read(_) => o
  }

  /** The object after a sequence of calls. */
  function Run(o: RegexObject, calls: seq<Call>, engine: Engine): RegexObject
    decreases |calls|
  {
    if |calls| == 0 then o else Run(Step(o, calls[0], engine), calls[1..], engine)
  }

  /** No call changes anything but the cursor: pattern, flags, the engine's modifier and
      `global` are those fixed at construction, so validity is kept. */
  lemma {:induction false} RunKeepsAllButCursor(o: RegexObject, calls: seq<Call>, engine: Engine)
    ensures SameButCursor(Run(o, calls, engine), o)
    ensures Valid(o) ==> Valid(Run(o, calls, engine))
    decreases |calls|
  {
    if |calls| > 0 {
      RunKeepsAllButCursor(Step(o, calls[0], engine), calls[1..], engine);
    }
  }

  /** Calls that never set `lastIndex` from the host. */
  predicate NoSetter(calls: seq<Call>) {
    forall k :: 0 <= k < |calls| ==> !calls[k].SetLastIndex?
  }

  /** A non-global object whose cursor is 0 keeps it at 0 through any calls that do not
      assign it from the host: its queries always start at offset 0. */
  lemma {:induction false} NonGlobalCursorStaysZero(o: RegexObject, calls: seq<Call>, engine: Engine)
    requires !o.global && o.lastIndex == 0
    requires NoSetter(calls)
    ensures Run(o, calls, engine).lastIndex == 0
    decreases |calls|
  {
    if |calls| > 0 {
      var o' := Step(o, calls[0], engine);
      assert !calls[0].SetLastIndex?;
      assert o'.lastIndex == 0 && !o'.global;
      NonGlobalCursorStaysZero(o', calls[1..], engine);
    }
  }

  /** A cursor assigned to a non-global object survives a successful `exec`: the adapter
      writes 0 only when nothing matches. */
  lemma NonGlobalExecKeepsAssignedCursor(o: RegexObject, subject: string, engine: Engine)
    requires !o.global
    requires |engine.run(CursorQuery(o, subject))| > 0
    ensures Exec(o, subject, engine).obj.lastIndex == o.lastIndex
  {
  }

  /** Pattern a(b)c with flags "g" over "abcabc": the first `exec` reports groups
      ["abc", "b"] at index 0 and moves the cursor to 3, the second reports index 3 and
      moves it to 6, the third finds nothing and resets it to 0. */
  lemma ExecIterationExample()
    ensures
      var first := MatchRecord(0, 3, "abc", ["b"], map[]);
      var second := MatchRecord(3, 6, "abc", ["b"], map[]);
      var engine := Engine(
        (p: string, f: string) => Success(""),
        (q: Query) => if q.start == 0 then [first, second] else if q.start <= 3 then [second] else [],
        (q: Query, t: string) => "",
        (q: Query, ts: seq<string>) => "");
      var o0 := RegexObject("a(b)c", "g", "", true, 0);
      var e1 := Exec(o0, "abcabc", engine);
      var e2 := Exec(e1.obj, "abcabc", engine);
      var e3 := Exec(e2.obj, "abcabc", engine);
      && e1.result == Some(ExecResult([Some("abc"), Some("b")], 0, "abcabc", map[])) && e1.obj.lastIndex == 3
      && e2.result == Some(ExecResult([Some("abc"), Some("b")], 3, "abcabc", map[])) && e2.obj.lastIndex == 6
      && e3.result == None && e3.obj.lastIndex == 0
  {
    var first := MatchRecord(0, 3, "abc", ["b"], map[]);
    var second := MatchRecord(3, 6, "abc", ["b"], map[]);
    assert first.Captures() == ["abc", "b"] && second.Captures() == ["abc", "b"];
    assert MatchIndex(first) == 0 && MatchIndex(second) == 3;
    assert ExecArrayAsWritten(2, ["abc", "b"]) == [Some("abc"), Some("b")];
    assert ExecArrayAsWritten(1, ["abc", "b"]) == [Some("abc"), Some("b")];
  }
}
