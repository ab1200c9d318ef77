/**
 * `RegexTokenizer` (src/syndantic/tokenizer/regex.py:234-343): the constructor names
 * every definition after its index and compiles the per-state tables; calling the
 * tokenizer scans a source text.
 */
module Tokenizer {
  import opened Wrappers
  import opened Tokens
  import opened Rules
  import opened Compiler
  import opened Scanner

  /** The decimal numeral of `n`, as an f-string writes it. */
  function Decimal(n: nat): (d: string)
    ensures 0 < |d|
    ensures forall k :: 0 <= k < |d| ==> '0' <= d[k] <= '9'
    ensures n < 10 <==> |d| == 1
    decreases n
  {
    if n < 10 then [Digit(n)] else Decimal(n / 10) + [Digit(n % 10)]
  }

  function Digit(n: nat): (c: char)
    requires n < 10
    ensures '0' <= c <= '9' && c as int - '0' as int == n
  {
    ('0' as int + n) as char
  }

  /** Distinct numbers have distinct numerals. */
  lemma {:induction false} DecimalInjective(m: nat, n: nat)
    requires Decimal(m) == Decimal(n)
    ensures m == n
    decreases n
  {
    var d := Decimal(n);
    if n >= 10 {
      assert m >= 10;
      assert d[|d| - 1] == Digit(m % 10) == Digit(n % 10);
      assert d[..|d| - 1] == Decimal(m / 10) == Decimal(n / 10);
      DecimalInjective(m / 10, n / 10);
    }
  }

  /**
   * The regex group name of definition `idx` (line 261): marked `__rule`, which is how
   * line 306 recognises the groups that stand for definitions.
   */
  function RuleName(idx: nat): (name: string)
    ensures |name| > 8 && name[..6] == "__rule" && name[|name| - 2..] == "__"
  {
    "__rule" + Decimal(idx) + "__"
  }

  /** Distinct definitions get distinct group names, so none overwrites another in `_defs`. */
  lemma RuleNameInjective(i: nat, j: nat)
    requires RuleName(i) == RuleName(j)
    ensures i == j
  {
    var a, b := RuleName(i), RuleName(j);
    assert a[6..|a| - 2] == Decimal(i);
    assert b[6..|b| - 2] == Decimal(j);
    DecimalInjective(i, j);
  }

  /**
   * `_defs` (lines 245 and 260-261): every definition under its group name, and nothing
   * else.
   */
  method NameRules(rules: seq<Rule>) returns (defs: map<string, Rule>)
    ensures forall idx :: 0 <= idx < |rules| ==> RuleName(idx) in defs && defs[RuleName(idx)] == rules[idx]
    ensures forall name :: name in defs ==> exists idx :: 0 <= idx < |rules| && name == RuleName(idx)
  {
    defs := map[];
    for idx := 0 to |rules|
      invariant forall j :: 0 <= j < idx ==> RuleName(j) in defs && defs[RuleName(j)] == rules[j]
      invariant forall name :: name in defs ==> exists j :: 0 <= j < idx && name == RuleName(j)
    {
      forall j | 0 <= j < idx
        ensures RuleName(j) != RuleName(idx)
      {
        if RuleName(j) == RuleName(idx) {
          RuleNameInjective(j, idx);
        }
      }
      defs := defs[RuleName(idx) := rules[idx]];
    }
  }

  /** A tokenizer: its definitions, their group names, and the compiled per-state tables. */
  class RegexTokenizer {
    const definitions: seq<Rule>
    const defs: map<string, Rule>
    const patterns: Table
    const matcher: Matcher

    ghost predicate Valid()
    {
      && IsCompiled(definitions, patterns)
      && Default in patterns
      && Ready(definitions, patterns, matcher)
      && (forall idx :: 0 <= idx < |definitions| ==>
            RuleName(idx) in defs && defs[RuleName(idx)] == definitions[idx])
    }

    /** `__init__` (lines 237-292), with the regex engine given as `matcher`. */
    constructor(definitions: seq<Rule>, matcher: Matcher)
      requires MatcherOk(matcher)
      ensures Valid()
      ensures this.definitions == definitions && this.matcher == matcher
      ensures forall name :: name in defs ==> exists idx :: 0 <= idx < |definitions| && name == RuleName(idx)
    {
      this.definitions := definitions;
      this.matcher := matcher;
      var named := NameRules(definitions);
      var compiled := Compile(definitions);
      CompiledIdsInRange(definitions, compiled);
      defs := named;
      patterns := compiled;
    }

    /**
     * `__call__` (lines 294-343): the tokens yielded while scanning `source` from
     * DEFAULT with an empty stack, and the lexical error that stopped the scan, if any.
     */
    method Call(source: string) returns (tokens: seq<Token>, error: Option<LexError>)
      requires Valid()
      ensures Outcome(tokens, error) == Run(definitions, patterns, matcher, source, Start)
    {
      var session := new ScanSession(definitions, patterns, matcher, source);
      tokens, error := session.Scan();
    }
  }
}
