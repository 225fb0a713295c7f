/**
 * The pattern-matching engine the adapter drives, seen only through its interface.
 * The engine itself is foreign code: the adapter is parameterised by an `Engine` value
 * whose fields are arbitrary total functions.
 */
module MatchEngine {
  import opened Wrappers

  /** One request to the engine: the compiled pattern (its source and the modifier string
      it was compiled with), the subject, where to start, and the match-time modifier
      string. */
  datatype Query = Query(pattern: string, compileFlags: string, subject: string, start: nat, modifier: string)

  /** What the engine reports about one match: its start and end offsets, the whole
      matched text (capture 0), the remaining numbered captures and the named captures. */
  datatype MatchRecord = MatchRecord(
    start: nat,
    end: nat,
    whole: string,
    groups: seq<string>,
    named: map<string, string>)
  {
    /** The numbered-capture vector of this match, whole match first. */
    function Captures(): (c: seq<string>)
      ensures |c| == |groups| + 1
      ensures c[0] == whole && c[1..] == groups
    {
      [whole] + groups
    }
  }

  /** A match record that really describes a span of `subject`. */
  predicate Consistent(m: MatchRecord, subject: string) {
    m.start <= m.end <= |subject| && subject[m.start..m.end] == m.whole
  }

  /**
   * The engine capability.
   *  - `compile(pattern, modifiers)` yields the modifier string the compiled pattern
   *    reports back, or the engine's diagnostic;
   *  - `run(q)` yields the matches found for `q`, in order (all of them when the modifier
   *    asks for a global search, otherwise at most the first);
   *  - `replaceLiteral(q, template)` is the engine's own template substitution;
   *  - `splice(q, texts)` substitutes `texts[i]` for the i-th match of `q`.
   */
  datatype Engine = Engine(
    compile: (string, string) -> Result<string, string>,
    run: Query -> seq<MatchRecord>,
    replaceLiteral: (Query, string) -> string,
    splice: (Query, seq<string>) -> string)
}
