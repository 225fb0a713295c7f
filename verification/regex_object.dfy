/** The wrapped regex object's state and its construction. */
module RegexObjects {
  import opened Wrappers
  import opened MatchEngine
  import opened Flags

  /**
   * The state a wrapped object carries: the pattern source, the modifier string it was
   * compiled with (`flags`, including any appended JIT hint), the modifier string the
   * compiled pattern reports back (`modifier`), the cached `global` bit and the cursor.
   */
  datatype RegexObject = RegexObject(
    pattern: string,
    flags: string,
    modifier: string,
    global: bool,
    lastIndex: nat)

  /** The cached `global` bit agrees with the presence of 'g' in the stored flags. */
  predicate Valid(o: RegexObject) {
    o.global <==> 'g' in o.flags
  }

  /** The first constructor argument as the host presents it. */
  datatype CtorArg =
    | PatternString(source: string, flags: Option<string>)
    | HostRegExp(source: string, ignoreCase: bool, multiline: bool, global: bool)
    | OtherValue

  /** Pattern source taken from the first constructor argument. */
  function ArgPattern(arg: CtorArg): string {
    match arg
    case PatternString(p, _) => p
    case HostRegExp(p, _, _, _) => p
    case OtherValue => ""
  }

  /** Modifier string resolved from the constructor arguments, before any JIT hint. */
  function ArgFlags(arg: CtorArg): string {
    match arg
    case PatternString(_, f) => if f.Some? then f.value else ""
    case HostRegExp(_, i, m, g) => SynthesizeFlags(i, m, g)
    case OtherValue => ""
  }

  /** The constructor name under which construction appends the JIT hint. */
  const JIT_CONSTRUCTOR: string := "PCRE2JIT"

  /** The engine's JIT modifier. */
  const JIT_HINT: string := "S"

  /** The modifier string the object stores and compiles with. */
  function StoredFlags(arg: CtorArg, constructorName: string): string {
    if constructorName == JIT_CONSTRUCTOR then ArgFlags(arg) + JIT_HINT else ArgFlags(arg)
  }

  /**
   * Construction: resolve pattern and flags, derive `global` from the resolved flags,
   * append the JIT hint for the JIT constructor, then compile. A compile failure yields
   * the engine's diagnostic instead of an object.
   */
  function New(arg: CtorArg, constructorName: string, engine: Engine): (r: Result<RegexObject, string>)
    ensures r.Success? ==> Valid(r.value) && r.value.lastIndex == 0
    ensures r.Success? ==> r.value.pattern == ArgPattern(arg)
    ensures r.Success? ==> (r.value.global <==> 'g' in ArgFlags(arg))
    ensures r.Success? && constructorName == JIT_CONSTRUCTOR ==> r.value.flags == ArgFlags(arg) + JIT_HINT
    ensures r.Success? && constructorName != JIT_CONSTRUCTOR ==> r.value.flags == ArgFlags(arg)
    ensures match engine.compile(ArgPattern(arg), StoredFlags(arg, constructorName))
      case Success(m) => r.Success? && r.value.modifier == m
      case Failure(e) => r == Failure(e)
  {
    var pattern := ArgPattern(arg);
    var global := 'g' in ArgFlags(arg);
    var flags := StoredFlags(arg, constructorName);
    match engine.compile(pattern, flags)
    case Failure(msg) => Failure(msg)
    case Success(modifier) => Success(RegexObject(pattern, flags, modifier, global, 0))
  }

  /** Building from a host RegExp stores the ordered subsequence of "img" for the set
      booleans (plus the JIT hint), and `global` mirrors the RegExp's global flag. */
  lemma NewFromHostRegExp(source: string, i: bool, m: bool, g: bool, constructorName: string, engine: Engine)
    requires New(HostRegExp(source, i, m, g), constructorName, engine).Success?
    ensures var o := New(HostRegExp(source, i, m, g), constructorName, engine).value;
      && o.pattern == source
      && o.global == g
      && o.lastIndex == 0
      && o.flags == SynthesizeFlags(i, m, g) + (if constructorName == JIT_CONSTRUCTOR then JIT_HINT else "")
  {
  }

  /** The stored flags of a JIT object are the user's flags with exactly one trailing "S",
      and appending it leaves `global` as it was. */
  lemma JitHintKeepsGlobal(arg: CtorArg, engine: Engine)
    requires New(arg, JIT_CONSTRUCTOR, engine).Success?
    requires New(arg, "PCRE2", engine).Success?
    ensures var j := New(arg, JIT_CONSTRUCTOR, engine).value;
      var p := New(arg, "PCRE2", engine).value;
      && j.flags == p.flags + "S"
      && j.global == p.global
      && j.pattern == p.pattern
  {
  }
}
