/** `toString`, the property getters and the `lastIndex` setter. */
module Introspection {
  import opened Wrappers
  import opened Ints
  import opened Flags
  import opened RegexObjects

  /** "/" + source + "/" + stored flags (including any appended JIT hint). */
  function ToString(o: RegexObject): (t: string)
    ensures |t| == |o.pattern| + |o.flags| + 2
    ensures t[0] == '/' && t[|o.pattern| + 1] == '/'
    ensures t[1..|o.pattern| + 1] == o.pattern
    ensures t[|o.pattern| + 2..] == o.flags
  {
    "/" + o.pattern + "/" + o.flags
  }

  /** The text between the slashes of `toString` is the source and what follows the second
      slash is the stored flags; for a valid object 'g' occurs there iff it is global. */
  lemma ToStringParts(o: RegexObject)
    requires Valid(o)
    ensures var t := ToString(o);
      && |t| == |o.pattern| + |o.flags| + 2
      && t[0] == '/' && t[|o.pattern| + 1] == '/'
      && t[1..|o.pattern| + 1] == o.pattern
      && t[|o.pattern| + 2..] == o.flags
      && ('g' in t[|o.pattern| + 2..] <==> o.global)
  {
  }

  /** `toString` of a freshly built object: the RegExp's source and its ordered "img"
      letters, followed by the JIT hint for the JIT constructor. */
  lemma ToStringOfNew(source: string, i: bool, m: bool, g: bool, constructorName: string, engine: MatchEngine.Engine)
    requires New(HostRegExp(source, i, m, g), constructorName, engine).Success?
    ensures ToString(New(HostRegExp(source, i, m, g), constructorName, engine).value)
         == "/" + source + "/" + SynthesizeFlags(i, m, g) + (if constructorName == JIT_CONSTRUCTOR then JIT_HINT else "")
  {
    NewFromHostRegExp(source, i, m, g, constructorName, engine);
    var o := New(HostRegExp(source, i, m, g), constructorName, engine).value;
    ToStringOfFlags(o, SynthesizeFlags(i, m, g), if constructorName == JIT_CONSTRUCTOR then JIT_HINT else "");
  }

  /** `toString` of an object whose stored flags are `letters` followed by `hint`. */
  lemma ToStringOfFlags(o: RegexObject, letters: string, hint: string)
    requires o.flags == letters + hint
    ensures ToString(o) == "/" + o.pattern + "/" + letters + hint
  {
    var prefix := "/" + o.pattern + "/";
    assert prefix + (letters + hint) == prefix + letters + hint;
  }

  /** A property value as the host receives it. */
  datatype PropertyValue = Str(s: string) | Number(n: int) | Flag(b: bool)

  /** The shared property getter, dispatching on the property name. */
  function PropertyGetter(o: RegexObject, name: string): (v: PropertyValue)
    ensures name == "sticky" ==> v == Flag(false)
    ensures name == "source" ==> v == Str(o.pattern)
    ensures name == "lastIndex" ==> v.Number? && 0 <= v.n < TWO_32
    ensures name == "lastIndex" && o.lastIndex < TWO_32 ==> v == Number(o.lastIndex)
    ensures name == "flags" ==>
      && v.Str?
      && |v.s| == |o.modifier| + (if o.global then 1 else 0)
      && v.s[..|o.modifier|] == o.modifier
      && (o.global ==> v.s[|v.s| - 1] == 'g')
      && ('g' in v.s <==> o.global || 'g' in o.modifier)
    ensures Valid(o) && name == "global" ==> v == Flag(o.global)
  {
    if name == "source" then Str(o.pattern)
    else if name == "flags" then Str(o.modifier + (if o.global then "g" else ""))
    else if name == "lastIndex" then Number(ToUint32(o.lastIndex))
    else
      var b :=
        if name == "global" then 'g' in o.flags
        else if name == "sticky" then false
        else if name == "ignoreCase" then 'i' in o.flags
        else if name == "multiline" then 'm' in o.flags
        else false;
      Flag(b)
  }

  /** Reading the boolean properties of an object built from a host RegExp gives back the
      RegExp's own flags. */
  lemma GettersOfNew(source: string, i: bool, m: bool, g: bool, constructorName: string, engine: MatchEngine.Engine)
    requires New(HostRegExp(source, i, m, g), constructorName, engine).Success?
    ensures var o := New(HostRegExp(source, i, m, g), constructorName, engine).value;
      && PropertyGetter(o, "ignoreCase") == Flag(i)
      && PropertyGetter(o, "multiline") == Flag(m)
      && PropertyGetter(o, "global") == Flag(g)
      && PropertyGetter(o, "sticky") == Flag(false)
      && PropertyGetter(o, "source") == Str(source)
  {
    NewFromHostRegExp(source, i, m, g, constructorName, engine);
    var o := New(HostRegExp(source, i, m, g), constructorName, engine).value;
    var f := SynthesizeFlags(i, m, g);
    var hint := if constructorName == JIT_CONSTRUCTOR then JIT_HINT else "";
    LetterOfAppended(f, hint, 'i');
    LetterOfAppended(f, hint, 'm');
    LetterOfAppended(f, hint, 'g');
    BooleanGetters(o);
  }

  /** The boolean getters read the stored flags. */
  lemma BooleanGetters(o: RegexObject)
    ensures PropertyGetter(o, "ignoreCase") == Flag('i' in o.flags)
    ensures PropertyGetter(o, "multiline") == Flag('m' in o.flags)
    ensures PropertyGetter(o, "global") == Flag('g' in o.flags)
  {
    assert "ignoreCase" != "source" && "ignoreCase" != "flags" && "ignoreCase" != "lastIndex";
    assert "ignoreCase" != "global" && "ignoreCase" != "sticky";
    assert "multiline" != "source" && "multiline" != "flags" && "multiline" != "lastIndex";
    assert "multiline" != "global" && "multiline" != "sticky" && "multiline" != "ignoreCase";
    assert "global" != "source" && "global" != "flags" && "global" != "lastIndex";
  }

  /** Appending characters other than `c` does not change whether `c` occurs. */
  lemma LetterOfAppended(f: string, h: string, c: char)
    requires c !in h
    ensures c in f + h <==> c in f
  {
    if c in f + h {
      var k :| 0 <= k < |f + h| && (f + h)[k] == c;
      if k >= |f| {
        assert h[k - |f|] == c;
      }
    }
  }

  datatype SetterOutcome = SetterOutcome(obj: RegexObject, echo: Option<int>)

  /** The shared property setter: only `lastIndex` is writable; the host value is converted
      to a signed 32-bit integer, negatives are stored as 0, and the stored value is echoed. */
  function PropertySetter(o: RegexObject, name: string, value: int): (r: SetterOutcome)
    ensures name != "lastIndex" ==> r == SetterOutcome(o, None)
    ensures name == "lastIndex" ==>
      && r.obj == o.(lastIndex := r.obj.lastIndex)
      && r.obj.lastIndex < TWO_31
      && (ToInt32(value) < 0 ==> r.obj.lastIndex == 0)
      && (ToInt32(value) >= 0 ==> r.obj.lastIndex == ToInt32(value))
      && r.echo == Some(r.obj.lastIndex)
  {
    if name == "lastIndex" then
      var v := ToInt32(value);
      var stored: nat := if v < 0 then 0 else v;
      SetterOutcome(o.(lastIndex := stored), Some(ToUint32(stored)))
    else
      SetterOutcome(o, None)
  }

  /** For a value in the signed 32-bit range the setter stores max(value, 0), and reading
      `lastIndex` back returns what the setter echoed. */
  lemma SetThenGetLastIndex(o: RegexObject, value: int)
    requires -TWO_31 <= value < TWO_31
    ensures var r := PropertySetter(o, "lastIndex", value);
      && r.obj.lastIndex == (if value < 0 then 0 else value)
      && PropertyGetter(r.obj, "lastIndex") == Number(r.echo.value)
  {
    ToInt32InRange(value);
    var r := PropertySetter(o, "lastIndex", value);
    ToUint32InRange(r.obj.lastIndex);
  }

  /** Setting `lastIndex` to the value just read back leaves the object as it was. */
  lemma SetterIdempotent(o: RegexObject, value: int)
    ensures var r := PropertySetter(o, "lastIndex", value);
      PropertySetter(r.obj, "lastIndex", r.obj.lastIndex) == r
  {
    var r := PropertySetter(o, "lastIndex", value);
    ToInt32InRange(r.obj.lastIndex);
  }
}
