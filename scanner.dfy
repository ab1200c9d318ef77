/**
 * The scan loop `RegexTokenizer.__call__` (src/syndantic/tokenizer/regex.py:294-343).
 *
 * One step in lexical state `state` tries the state's buckets from the highest priority
 * down.  In a bucket the longest match wins, ties going to the rule listed first.  If
 * the winning rule runs its factory and the factory declines, the next lower bucket is
 * tried (lines 324-325 as written).  The first bucket that yields a rule fires: its
 * transition moves state and stack, and its category decides what becomes of the
 * matched text.
 *
 * The source as written does not run; the model follows its evident intent:
 *  - line 287 joins a bucket's patterns by `|`, which the regex engine matches
 *    leftmost-first; the documented rule (lines 183-185) is longest match;
 *  - line 305 unpacks each `groupdict()` key, a string such as `__rule0__`, into two
 *    names, which raises ValueError on the first key, so the `else` at line 308 is
 *    never reached (iterating `.items()` instead, the loop would never `break` and that
 *    `else` would raise); meant: the rule whose group took part in the match;
 *  - line 300 never shortens `source`; meant: continue after the matched text (`cursor`);
 *  - line 301 fails with KeyError in a state that has no table, and line 343 with a
 *    bare `raise` when no bucket yields a rule; both are lexical errors here;
 *  - line 326 calls the enum member `defn.transition(...)`; meant: `.apply(...)`;
 *  - nothing guards against a zero-length match: one that leaves state and stack as
 *    they are repeats forever.  The model rejects every selected zero-length match as
 *    a lexical error, including one whose transition changes the state, after which
 *    the source would go on scanning in the new state.
 * Positions passed to the factory (line 322) are left out.
 */
module Scanner {
  import opened Wrappers
  import opened Tokens
  import opened Transitions
  import opened Rules
  import opened Compiler

  /**
   * The regex engine, abstracted: the length of the match of a rule's pattern (with its
   * `ignore_case`) anchored at the start of the input, or None (`pat.match`, line 302).
   */
  type Matcher = (Rule, string) -> Option<nat>

  /** An anchored match never extends past the end of the input. */
  ghost predicate MatcherOk(m: Matcher)
  {
    forall r, s :: m(r, s).Some? ==> m(r, s).value <= |s|
  }

  /** Every id in `ids` is the index of a rule. */
  predicate ValidIds(rules: seq<Rule>, ids: seq<nat>)
  {
    forall j :: 0 <= j < |ids| ==> ids[j] < |rules|
  }

  // ---------------------------------------------------------------------------
  // Choosing the rule of one bucket

  /** Position and length of the winning match of a bucket. */
  datatype Hit = Hit(pos: nat, len: nat)

  /**
   * The longest match among the rules `ids[..n]` at the start of `input`; on equal
   * lengths the one listed first wins.
   */
  function Longest(rules: seq<Rule>, ids: seq<nat>, n: nat, input: string, m: Matcher): (h: Option<Hit>)
    requires n <= |ids| && ValidIds(rules, ids)
    ensures h.None? <==> forall j :: 0 <= j < n ==> m(rules[ids[j]], input).None?
    ensures h.Some? ==> h.value.pos < n && m(rules[ids[h.value.pos]], input) == Some(h.value.len)
    ensures h.Some? ==> forall j :: 0 <= j < n && m(rules[ids[j]], input).Some? ==>
                          m(rules[ids[j]], input).value <= h.value.len
    ensures h.Some? ==> forall j :: 0 <= j < h.value.pos && m(rules[ids[j]], input).Some? ==>
                          m(rules[ids[j]], input).value < h.value.len
  {
    if n == 0 then None
    else
      var earlier := Longest(rules, ids, n - 1, input, m);
      match m(rules[ids[n - 1]], input)
      case None => earlier
      case Some(len) =>
        if earlier.Some? && earlier.value.len >= len then earlier else Some(Hit(n - 1, len))
  }

  /**
   * The match of the `|`-joined bucket pattern as written at line 287: the regex engine
   * takes the first alternative, from `ids[k]` on, that matches at all.
   */
  function FirstMatch(rules: seq<Rule>, ids: seq<nat>, k: nat, input: string, m: Matcher): (h: Option<Hit>)
    requires k <= |ids| && ValidIds(rules, ids)
    ensures h.None? <==> forall j :: k <= j < |ids| ==> m(rules[ids[j]], input).None?
    ensures h.Some? ==> k <= h.value.pos < |ids| && m(rules[ids[h.value.pos]], input) == Some(h.value.len)
    ensures h.Some? ==> forall j :: k <= j < h.value.pos ==> m(rules[ids[j]], input).None?
    decreases |ids| - k
  {
    if k == |ids| then None
    else
      match m(rules[ids[k]], input)
      case Some(len) => Some(Hit(k, len))
      case None => FirstMatch(rules, ids, k + 1, input, m)
  }

  /** A rule of priority 0 in every state whose pattern is the literal text `p`. */
  function LiteralRule(p: string): Rule
  {
    Rule(p, None, None, Switch, None, SimpleToken, false, 0, false, Tok)
  }

  /** A matcher for literal patterns: the pattern's length if the input starts with it. */
  function LiteralMatcher(r: Rule, s: string): Option<nat>
  {
    if |r.pattern| <= |s| && s[..|r.pattern|] == r.pattern then Some(|r.pattern|) else None
  }

  /**
   * With the rules `a` and `ab` in one bucket, the joined pattern as written matches
   * only `a` in "ab", although `ab` is the longest match that lines 183-185 promise.
   */
  lemma LeftmostFirstIsNotLongest()
    ensures var rules := [LiteralRule("a"), LiteralRule("ab")];
            && FirstMatch(rules, [0, 1], 0, "ab", LiteralMatcher) == Some(Hit(0, 1))
            && Longest(rules, [0, 1], 2, "ab", LiteralMatcher) == Some(Hit(1, 2))
  {
    var rules := [LiteralRule("a"), LiteralRule("ab")];
    assert LiteralMatcher(rules[0], "ab") == Some(1) by { assert "ab"[..1] == "a"; }
    assert LiteralMatcher(rules[1], "ab") == Some(2) by { assert "ab"[..2] == "ab"; }
  }

  /** The rule a step fires: its bucket, its id, its match length and the token it built. */
  datatype Fire = Fire(bucket: nat, id: nat, len: nat, token: Option<Token>)

  /**
   * Bucket `k` with rule list `ids` (one iteration of the loop at line 301): the
   * longest match, then the factory when the rule runs it (lines 317-325).  None when
   * nothing in the bucket matches or the factory declines.
   */
  function TryBucket(rules: seq<Rule>, ids: seq<nat>, k: nat, input: string, m: Matcher,
                     backlog: string, special: Option<Token>): (f: Option<Fire>)
    requires ValidIds(rules, ids) && MatcherOk(m)
    ensures f.Some? ==> f.value.bucket == k && f.value.id < |rules| && f.value.len <= |input|
    ensures f.Some? ==> f.value.id in ids && m(rules[f.value.id], input) == Some(f.value.len)
  {
    match Longest(rules, ids, |ids|, input, m)
    case None => None
    case Some(h) =>
      var r := rules[ids[h.pos]];
      if !RunsFactory(r) then Some(Fire(k, ids[h.pos], h.len, None))
      else
        match r.factory(backlog + input[..h.len], r.kind, special)
        case None => None
        case Some(token) => Some(Fire(k, ids[h.pos], h.len, Some(token)))
  }

  /** What bucket `k` yields, in terms of its rules and their factories. */
  lemma TryBucketIff(rules: seq<Rule>, ids: seq<nat>, k: nat, input: string, m: Matcher,
                     backlog: string, special: Option<Token>)
    requires ValidIds(rules, ids) && MatcherOk(m)
    // nothing matches: the bucket yields nothing
    ensures (forall j :: 0 <= j < |ids| ==> m(rules[ids[j]], input).None?)
            ==> TryBucket(rules, ids, k, input, m, backlog, special).None?
    // it yields a longest match of one of its rules, with the factory's token if it runs
    ensures var f := TryBucket(rules, ids, k, input, m, backlog, special);
            f.Some? ==>
              var r := rules[f.value.id];
              && (exists j :: 0 <= j < |ids| && ids[j] == f.value.id)
              && m(r, input) == Some(f.value.len)
              && (forall j :: 0 <= j < |ids| && m(rules[ids[j]], input).Some? ==>
                    m(rules[ids[j]], input).value <= f.value.len)
              && (f.value.token.Some? <==> RunsFactory(r))
              && (RunsFactory(r) ==> f.value.token == r.factory(backlog + input[..f.value.len], r.kind, special))
    // something matches but the bucket yields nothing: the winner's factory declined
    ensures var f := TryBucket(rules, ids, k, input, m, backlog, special);
            f.None? && (exists j :: 0 <= j < |ids| && m(rules[ids[j]], input).Some?) ==>
              var h := Longest(rules, ids, |ids|, input, m).value;
              var r := rules[ids[h.pos]];
              RunsFactory(r) && r.factory(backlog + input[..h.len], r.kind, special).None?
    // and conversely: when the winner's factory declines, the bucket yields nothing
    ensures Declined(rules, ids, input, m, backlog, special)
            ==> TryBucket(rules, ids, k, input, m, backlog, special).None?
  {
    var f := TryBucket(rules, ids, k, input, m, backlog, special);
    var h := Longest(rules, ids, |ids|, input, m);
    if f.Some? {
      assert ids[h.value.pos] == f.value.id;
    }
  }

  // ---------------------------------------------------------------------------
  // Choosing the rule of one step

  /** Every bucket of `bs` lists only rule ids. */
  predicate ValidBuckets(rules: seq<Rule>, bs: seq<Bucket>)
  {
    forall k :: 0 <= k < |bs| ==> ValidIds(rules, bs[k].ids)
  }

  /**
   * The buckets `bs[k..]` tried in order (the `for pat in ...` loop at lines 301-341):
   * the first one that yields a rule fires.
   */
  function SelectFrom(rules: seq<Rule>, bs: seq<Bucket>, k: nat, input: string, m: Matcher,
                      backlog: string, special: Option<Token>): (f: Option<Fire>)
    requires k <= |bs| && ValidBuckets(rules, bs) && MatcherOk(m)
    ensures f.Some? ==>
              && k <= f.value.bucket < |bs|
              && TryBucket(rules, bs[f.value.bucket].ids, f.value.bucket, input, m, backlog, special) == f
              && forall j :: k <= j < f.value.bucket ==>
                   TryBucket(rules, bs[j].ids, j, input, m, backlog, special).None?
    ensures f.None? <==> forall j :: k <= j < |bs| ==>
                           TryBucket(rules, bs[j].ids, j, input, m, backlog, special).None?
    decreases |bs| - k
  {
    if k == |bs| then None
    else
      var here := TryBucket(rules, bs[k].ids, k, input, m, backlog, special);
      if here.Some? then here else SelectFrom(rules, bs, k + 1, input, m, backlog, special)
  }

  /**
   * The bucket's longest match belongs to a rule that runs its factory, and the factory
   * declined to build a token.
   */
  ghost predicate Declined(rules: seq<Rule>, ids: seq<nat>, input: string, m: Matcher,
                           backlog: string, special: Option<Token>)
    requires ValidIds(rules, ids) && MatcherOk(m)
  {
    match Longest(rules, ids, |ids|, input, m)
    case None => false
    case Some(h) =>
      var r := rules[ids[h.pos]];
      RunsFactory(r) && r.factory(backlog + input[..h.len], r.kind, special).None?
  }

  /** Every factory of the rules builds a token for every image, kind and special token. */
  ghost predicate AlwaysBuilds(rules: seq<Rule>)
  {
    forall i, image, kind, special :: 0 <= i < |rules| ==> rules[i].factory(image, kind, special).Some?
  }

  /** In a compiled state a rule that applies sits in the bucket of its priority. */
  lemma BucketOf(rules: seq<Rule>, t: Table, s: string, i: nat) returns (k: nat)
    requires IsCompiled(rules, t) && s in t && i < |rules| && Applies(rules[i], s)
    ensures k < |t[s]| && t[s][k].priority == rules[i].priority && i in t[s][k].ids
  {
    CompiledMembership(rules, t, s, i);
    k :| 0 <= k < |t[s]| && i in t[s][k].ids;
  }

  /** In a descending bucket list the order of priorities is the order of positions. */
  lemma DescendingPositions(bs: seq<Bucket>, j: nat, k: nat)
    requires Descending(bs) && j < |bs| && k < |bs|
    ensures bs[j].priority == bs[k].priority ==> j == k
    ensures bs[j].priority > bs[k].priority ==> j < k
  {
  }

  /** In a compiled state the fired rule applies there and sits in the bucket of its priority. */
  lemma SelectedApplies(rules: seq<Rule>, t: Table, m: Matcher, input: string, s: string,
                        backlog: string, special: Option<Token>)
    requires IsCompiled(rules, t) && MatcherOk(m) && s in t
    requires ValidBuckets(rules, t[s])
    requires SelectFrom(rules, t[s], 0, input, m, backlog, special).Some?
    ensures var f := SelectFrom(rules, t[s], 0, input, m, backlog, special).value;
            && Applies(rules[f.id], s)
            && t[s][f.bucket].priority == rules[f.id].priority
            && m(rules[f.id], input) == Some(f.len)
  {
    var bs := t[s];
    var f := SelectFrom(rules, bs, 0, input, m, backlog, special).value;
    TryBucketIff(rules, bs[f.bucket].ids, f.bucket, input, m, backlog, special);
    assert f.id in bs[f.bucket].ids;
    MembersIff(rules, s, bs[f.bucket].priority, f.id);
  }

  /** Among the matching rules of the fired rule's priority in its state, its match is a longest. */
  lemma LongestWithinPriority(rules: seq<Rule>, t: Table, m: Matcher, input: string, s: string,
                              backlog: string, special: Option<Token>, i: nat)
    requires IsCompiled(rules, t) && MatcherOk(m) && s in t
    requires ValidBuckets(rules, t[s])
    requires SelectFrom(rules, t[s], 0, input, m, backlog, special).Some?
    requires var f := SelectFrom(rules, t[s], 0, input, m, backlog, special).value;
             i < |rules| && Applies(rules[i], s) && rules[i].priority == rules[f.id].priority
             && m(rules[i], input).Some?
    ensures m(rules[i], input).value <= SelectFrom(rules, t[s], 0, input, m, backlog, special).value.len
  {
    var bs := t[s];
    var f := SelectFrom(rules, bs, 0, input, m, backlog, special).value;
    SelectedApplies(rules, t, m, input, s, backlog, special);
    var k := BucketOf(rules, t, s, i);
    DescendingPositions(bs, k, f.bucket);
    assert k == f.bucket;
    var ids := bs[k].ids;
    var j :| 0 <= j < |ids| && ids[j] == i;
    TryBucketIff(rules, ids, k, input, m, backlog, special);
    assert m(rules[ids[j]], input).value <= f.len;
  }

  /**
   * A matching rule of a higher priority than the fired one lost only because the
   * factory of its bucket's winner declined.
   */
  lemma HigherPriorityDeclined(rules: seq<Rule>, t: Table, m: Matcher, input: string, s: string,
                               backlog: string, special: Option<Token>, i: nat)
    requires IsCompiled(rules, t) && MatcherOk(m) && s in t
    requires ValidBuckets(rules, t[s])
    requires SelectFrom(rules, t[s], 0, input, m, backlog, special).Some?
    requires var f := SelectFrom(rules, t[s], 0, input, m, backlog, special).value;
             i < |rules| && Applies(rules[i], s) && rules[i].priority > rules[f.id].priority
             && m(rules[i], input).Some?
    ensures var f := SelectFrom(rules, t[s], 0, input, m, backlog, special).value;
            exists k :: 0 <= k < f.bucket && t[s][k].priority == rules[i].priority
                        && Declined(rules, t[s][k].ids, input, m, backlog, special)
  {
    var bs := t[s];
    var f := SelectFrom(rules, bs, 0, input, m, backlog, special).value;
    SelectedApplies(rules, t, m, input, s, backlog, special);
    var k := BucketOf(rules, t, s, i);
    DescendingPositions(bs, k, f.bucket);
    TryBucketIff(rules, bs[k].ids, k, input, m, backlog, special);
  }

  /** With factories that always build, a bucket with a match always yields a rule. */
  lemma BuildingBucketYields(rules: seq<Rule>, ids: seq<nat>, k: nat, input: string, m: Matcher,
                             backlog: string, special: Option<Token>, i: nat)
    requires ValidIds(rules, ids) && MatcherOk(m) && AlwaysBuilds(rules)
    requires i in ids && m(rules[i], input).Some?
    ensures TryBucket(rules, ids, k, input, m, backlog, special).Some?
  {
    var h := Longest(rules, ids, |ids|, input, m);
    var r := ids[h.value.pos];
    assert rules[r].factory(backlog + input[..h.value.len], rules[r].kind, special).Some?;
  }

  /**
   * With factories that always build, the fired rule has the highest priority among
   * the matching rules of the state, even where a lower one would match more.
   */
  lemma HighestPriorityWins(rules: seq<Rule>, t: Table, m: Matcher, input: string, s: string,
                            backlog: string, special: Option<Token>, i: nat)
    requires IsCompiled(rules, t) && MatcherOk(m) && s in t && AlwaysBuilds(rules)
    requires ValidBuckets(rules, t[s])
    requires SelectFrom(rules, t[s], 0, input, m, backlog, special).Some?
    requires i < |rules| && Applies(rules[i], s) && m(rules[i], input).Some?
    ensures rules[i].priority <= rules[SelectFrom(rules, t[s], 0, input, m, backlog, special).value.id].priority
  {
    var bs := t[s];
    var f := SelectFrom(rules, bs, 0, input, m, backlog, special).value;
    SelectedApplies(rules, t, m, input, s, backlog, special);
    var k := BucketOf(rules, t, s, i);
    BuildingBucketYields(rules, bs[k].ids, k, input, m, backlog, special, i);
    assert f.bucket <= k;
    DescendingPositions(bs, k, f.bucket);
  }

  /**
   * In a compiled state no bucket yields a rule exactly when every matching rule of the
   * state lost to a declining factory; in particular when no rule of the state matches.
   */
  lemma NothingSelected(rules: seq<Rule>, t: Table, m: Matcher, input: string, s: string,
                        backlog: string, special: Option<Token>)
    requires IsCompiled(rules, t) && MatcherOk(m) && s in t
    requires ValidBuckets(rules, t[s])
    ensures (forall i :: 0 <= i < |rules| && Applies(rules[i], s) ==> m(rules[i], input).None?)
            ==> SelectFrom(rules, t[s], 0, input, m, backlog, special).None?
    ensures SelectFrom(rules, t[s], 0, input, m, backlog, special).None? ==>
              forall i :: 0 <= i < |rules| && Applies(rules[i], s) && m(rules[i], input).Some? ==>
                exists k :: 0 <= k < |t[s]| && t[s][k].priority == rules[i].priority
                            && Declined(rules, t[s][k].ids, input, m, backlog, special)
  {
    if forall i :: 0 <= i < |rules| && Applies(rules[i], s) ==> m(rules[i], input).None? {
      NoBucketMatches(rules, t, m, input, s, backlog, special);
    }
    if SelectFrom(rules, t[s], 0, input, m, backlog, special).None? {
      forall i | 0 <= i < |rules| && Applies(rules[i], s) && m(rules[i], input).Some?
        ensures exists k :: 0 <= k < |t[s]| && t[s][k].priority == rules[i].priority
                            && Declined(rules, t[s][k].ids, input, m, backlog, special)
      {
        var k := BucketOf(rules, t, s, i);
        var j :| 0 <= j < |t[s][k].ids| && t[s][k].ids[j] == i;
        DeclinedBucket(rules, t[s][k].ids, k, input, m, backlog, special, j);
      }
    }
  }

  /** In a compiled state where no applicable rule matches, no bucket yields a rule. */
  lemma NoBucketMatches(rules: seq<Rule>, t: Table, m: Matcher, input: string, s: string,
                        backlog: string, special: Option<Token>)
    requires IsCompiled(rules, t) && MatcherOk(m) && s in t
    requires ValidBuckets(rules, t[s])
    requires forall i :: 0 <= i < |rules| && Applies(rules[i], s) ==> m(rules[i], input).None?
    ensures SelectFrom(rules, t[s], 0, input, m, backlog, special).None?
  {
    var bs := t[s];
    forall k | 0 <= k < |bs|
      ensures TryBucket(rules, bs[k].ids, k, input, m, backlog, special).None?
    {
      forall j | 0 <= j < |bs[k].ids|
        ensures m(rules[bs[k].ids[j]], input).None?
      {
        assert bs[k].ids[j] in bs[k].ids;
        MembersIff(rules, s, bs[k].priority, bs[k].ids[j]);
      }
      TryBucketIff(rules, bs[k].ids, k, input, m, backlog, special);
    }
  }

  /** A bucket that yields nothing although its rule `ids[j]` matches has declined. */
  lemma DeclinedBucket(rules: seq<Rule>, ids: seq<nat>, k: nat, input: string, m: Matcher,
                       backlog: string, special: Option<Token>, j: nat)
    requires ValidIds(rules, ids) && MatcherOk(m)
    requires j < |ids| && m(rules[ids[j]], input).Some?
    requires TryBucket(rules, ids, k, input, m, backlog, special).None?
    ensures Declined(rules, ids, input, m, backlog, special)
  {
    TryBucketIff(rules, ids, k, input, m, backlog, special);
  }

  // ---------------------------------------------------------------------------
  // One step

  /**
   * The scanner's variables between two steps (lines 296-299), with the read position
   * `cursor` that line 300 evidently intends.
   */
  datatype Config = Config(state: string, stack: seq<string>, backlog: string,
                           special: Option<Token>, cursor: nat)

  /** Lines 296-299: DEFAULT, an empty stack, no backlog, no pending special token. */
  const Start: Config := Config(Default, [], "", None, 0)

  datatype LexError =
    | UnknownState(state: string)        // line 301: the state has no table
    | NoMatch(state: string, at: nat)    // line 343: no bucket yields a rule
    | EmptyMatch(state: string, at: nat) // the winning match is empty
    | EmptyStack(state: string, at: nat) // POP or SWAP with an empty stack (lines 72 and 77)

  datatype StepResult =
    | Stepped(next: Config, fired: Fire, emitted: Option<Token>)
    | Failed(error: LexError)

  /** The scanner is run with a table whose ids name rules and with an honest matcher. */
  ghost predicate Ready(rules: seq<Rule>, t: Table, m: Matcher)
  {
    IdsInRange(rules, t) && MatcherOk(m)
  }

  lemma ReadyBuckets(rules: seq<Rule>, t: Table, m: Matcher, s: string)
    requires Ready(rules, t, m) && s in t
    ensures ValidBuckets(rules, t[s])
  {
  }

  /** The rule the step at `c` fires, if any (lines 301-325). */
  function Select(rules: seq<Rule>, t: Table, m: Matcher, source: string, c: Config): (f: Option<Fire>)
    requires Ready(rules, t, m) && c.cursor <= |source| && c.state in t
    ensures f.Some? ==> f.value.id < |rules| && f.value.len <= |source| - c.cursor
    ensures f.Some? ==> f.value.bucket < |t[c.state]| && f.value.id in t[c.state][f.value.bucket].ids
    ensures f.Some? ==> m(rules[f.value.id], source[c.cursor..]) == Some(f.value.len)
  {
    ReadyBuckets(rules, t, m, c.state);
    SelectFrom(rules, t[c.state], 0, source[c.cursor..], m, c.backlog, c.special)
  }

  /**
   * Lines 326-340: after rule `r` fired on `text` with factory result `token`, the
   * transition moves state and stack and the category settles backlog, special token
   * and output.
   */
  function Commit(r: Rule, c: Config, text: string, token: Option<Token>): (res: Option<(Config, Option<Token>)>)
    ensures res.None? <==> Apply(r.transition, c.state, r.to, c.stack).None?
    ensures res.Some? ==>
              var (next, emitted) := res.value;
              && Apply(r.transition, c.state, r.to, c.stack) == Some(Moved(next.state, next.stack))
              && next.cursor == c.cursor + |text|
              // only TOKEN yields, and it yields the factory's token
              && (emitted.Some? <==> r.category.Tok? && token.Some?)
              && (r.category.Tok? ==> emitted == token)
              // TOKEN clears backlog and special; MORE keeps the text for the next token;
              // SKIP drops the backlog; SPECIAL holds its token for the next token
              && (r.category.Tok? ==> next.backlog == "" && next.special.None?)
              && (r.category.More? ==> next.backlog == c.backlog + text && next.special == c.special)
              && (r.category.Skip? ==> next.backlog == "" && next.special == c.special)
              && (r.category.Special? ==> next.backlog == c.backlog && next.special == token)
  {
    match Apply(r.transition, c.state, r.to, c.stack)
    case None => None
    case Some(moved) =>
      var next := c.(state := moved.state, stack := moved.stack, cursor := c.cursor + |text|);
      match r.category
      case Tok => Some((next.(backlog := "", special := None), token))
      case More => Some((next.(backlog := c.backlog + text), None))
      case Skip => Some((next.(backlog := ""), None))
      case Special => Some((next.(special := token), None))
  }

  /** One iteration of the `while source` loop (lines 300-343). */
  function Advance(rules: seq<Rule>, t: Table, m: Matcher, source: string, c: Config): (res: StepResult)
    requires Ready(rules, t, m) && c.cursor < |source|
    // the errors
    ensures res.Failed? && res.error.UnknownState? <==> c.state !in t
    ensures res.Failed? && res.error.NoMatch? <==> c.state in t && Select(rules, t, m, source, c).None?
    ensures res.Failed? && res.error.EmptyMatch? <==>
              c.state in t && Select(rules, t, m, source, c).Some? && Select(rules, t, m, source, c).value.len == 0
    ensures res.Failed? && res.error.EmptyStack? <==>
              && c.state in t && Select(rules, t, m, source, c).Some?
              && Select(rules, t, m, source, c).value.len > 0
              && var r := rules[Select(rules, t, m, source, c).value.id];
                 (r.transition.Pop? || r.transition.Swap?) && c.stack == []
    // a step fires the selected rule and moves past its non-empty match
    ensures res.Stepped? ==>
              && c.state in t
              && Select(rules, t, m, source, c) == Some(res.fired)
              && 0 < res.fired.len && res.next.cursor == c.cursor + res.fired.len <= |source|
              && Commit(rules[res.fired.id], c, source[c.cursor..res.next.cursor], res.fired.token)
                   == Some((res.next, res.emitted))
  {
    if c.state !in t then Failed(UnknownState(c.state))
    else
      match Select(rules, t, m, source, c)
      case None => Failed(NoMatch(c.state, c.cursor))
      case Some(f) =>
        if f.len == 0 then Failed(EmptyMatch(c.state, c.cursor))
        else
          match Commit(rules[f.id], c, source[c.cursor..c.cursor + f.len], f.token)
          case None => Failed(EmptyStack(c.state, c.cursor))
          case Some((next, emitted)) => Stepped(next, f, emitted)
  }

  // ---------------------------------------------------------------------------
  // The whole scan

  /** The tokens yielded, and the lexical error that stopped the scan early, if one did. */
  datatype Outcome = Outcome(tokens: seq<Token>, error: Option<LexError>)

  /** The tokens yielded by one step. */
  function Emitted(emitted: Option<Token>): seq<Token>
  {
    if emitted.Some? then [emitted.value] else []
  }

  /** Scanning `source` from `c` to its end, or to the first lexical error. */
  function Run(rules: seq<Rule>, t: Table, m: Matcher, source: string, c: Config): (o: Outcome)
    requires Ready(rules, t, m) && c.cursor <= |source|
    ensures |o.tokens| <= |source| - c.cursor
    ensures c.cursor == |source| ==> o == Outcome([], None)
    decreases |source| - c.cursor
  {
    if c.cursor == |source| then Outcome([], None)
    else
      match Advance(rules, t, m, source, c)
      case Failed(e) => Outcome([], Some(e))
      case Stepped(next, _, emitted) =>
        var rest := Run(rules, t, m, source, next);
        Outcome(Emitted(emitted) + rest.tokens, rest.error)
  }

  // ---------------------------------------------------------------------------
  // Properties of a step

  /**
   * The fired rule's factory runs exactly when its category or flag asks for it (lines
   * 317-318), on the backlog followed by the matched text, the rule's kind and the
   * pending special token (lines 319-323), and did not decline.
   */
  lemma StepFactory(rules: seq<Rule>, t: Table, m: Matcher, source: string, c: Config)
    requires Ready(rules, t, m) && c.cursor < |source|
    requires Advance(rules, t, m, source, c).Stepped?
    ensures var st := Advance(rules, t, m, source, c);
            var r := rules[st.fired.id];
            var text := source[c.cursor..st.next.cursor];
            && (st.fired.token.Some? <==> RunsFactory(r))
            && (RunsFactory(r) ==> st.fired.token == r.factory(c.backlog + text, r.kind, c.special))
  {
    var st := Advance(rules, t, m, source, c);
    var f := st.fired;
    var input := source[c.cursor..];
    ReadyBuckets(rules, t, m, c.state);
    TryBucketIff(rules, t[c.state][f.bucket].ids, f.bucket, input, m, c.backlog, c.special);
    assert input[..f.len] == source[c.cursor..st.next.cursor];
  }

  /** A step yields a token exactly when the fired rule is a TOKEN rule. */
  lemma OnlyTokenYields(rules: seq<Rule>, t: Table, m: Matcher, source: string, c: Config)
    requires Ready(rules, t, m) && c.cursor < |source|
    requires Advance(rules, t, m, source, c).Stepped?
    ensures var st := Advance(rules, t, m, source, c);
            st.emitted.Some? <==> rules[st.fired.id].category.Tok?
  {
    StepFactory(rules, t, m, source, c);
  }

  /**
   * MORE, then TOKEN: the token's factory receives the earlier backlog, the MORE
   * rule's text and its own text, and the special token pending before both.
   */
  lemma MoreFeedsToken(rules: seq<Rule>, t: Table, m: Matcher, source: string, c: Config)
    requires Ready(rules, t, m) && c.cursor < |source|
    requires Advance(rules, t, m, source, c).Stepped?
    requires rules[Advance(rules, t, m, source, c).fired.id].category.More?
    requires var c2 := Advance(rules, t, m, source, c).next;
             c2.cursor < |source| && Advance(rules, t, m, source, c2).Stepped?
             && rules[Advance(rules, t, m, source, c2).fired.id].category.Tok?
    ensures var c2 := Advance(rules, t, m, source, c).next;
            var st := Advance(rules, t, m, source, c2);
            var r := rules[st.fired.id];
            st.emitted == r.factory(c.backlog + source[c.cursor..c2.cursor] + source[c2.cursor..st.next.cursor],
                                    r.kind, c.special)
  {
    var c2 := Advance(rules, t, m, source, c).next;
    StepFactory(rules, t, m, source, c2);
  }

  /** SPECIAL, then TOKEN: the token's factory receives the SPECIAL rule's token. */
  lemma SpecialFeedsToken(rules: seq<Rule>, t: Table, m: Matcher, source: string, c: Config)
    requires Ready(rules, t, m) && c.cursor < |source|
    requires Advance(rules, t, m, source, c).Stepped?
    requires rules[Advance(rules, t, m, source, c).fired.id].category.Special?
    requires var c2 := Advance(rules, t, m, source, c).next;
             c2.cursor < |source| && Advance(rules, t, m, source, c2).Stepped?
    ensures var st1 := Advance(rules, t, m, source, c);
            var st2 := Advance(rules, t, m, source, st1.next);
            var r := rules[st2.fired.id];
            RunsFactory(r) ==>
              st2.fired.token == r.factory(c.backlog + source[st1.next.cursor..st2.next.cursor], r.kind, st1.fired.token)
  {
    var c2 := Advance(rules, t, m, source, c).next;
    StepFactory(rules, t, m, source, c2);
  }

  /** In a compiled table a step from a known state where no rule of the state matches fails. */
  lemma NoMatchError(rules: seq<Rule>, t: Table, m: Matcher, source: string, c: Config)
    requires IsCompiled(rules, t) && Ready(rules, t, m) && c.cursor < |source| && c.state in t
    requires forall i :: 0 <= i < |rules| && Applies(rules[i], c.state) ==> m(rules[i], source[c.cursor..]).None?
    ensures Advance(rules, t, m, source, c) == Failed(NoMatch(c.state, c.cursor))
  {
    ReadyBuckets(rules, t, m, c.state);
    NothingSelected(rules, t, m, source[c.cursor..], c.state, c.backlog, c.special);
  }

  /** With factories that always build, a state in which some rule matches selects a rule. */
  lemma MatchIsSelected(rules: seq<Rule>, t: Table, m: Matcher, input: string, s: string,
                        backlog: string, special: Option<Token>, i: nat)
    requires IsCompiled(rules, t) && MatcherOk(m) && s in t && AlwaysBuilds(rules)
    requires ValidBuckets(rules, t[s])
    requires i < |rules| && Applies(rules[i], s)
    ensures m(rules[i], input).Some? ==> SelectFrom(rules, t[s], 0, input, m, backlog, special).Some?
  {
    var k := BucketOf(rules, t, s, i);
    if m(rules[i], input).Some? {
      BuildingBucketYields(rules, t[s][k].ids, k, input, m, backlog, special, i);
    }
  }

  lemma NoSelectionNoMatch(rules: seq<Rule>, t: Table, m: Matcher, input: string, s: string,
                           backlog: string, special: Option<Token>, i: nat)
    requires IsCompiled(rules, t) && MatcherOk(m) && s in t && AlwaysBuilds(rules)
    requires ValidBuckets(rules, t[s])
    requires i < |rules| && Applies(rules[i], s)
    requires SelectFrom(rules, t[s], 0, input, m, backlog, special).None?
    ensures m(rules[i], input).None?
  {
    MatchIsSelected(rules, t, m, input, s, backlog, special, i);
  }

  /**
   * With factories that always build, a step fails for want of a match only when no
   * rule of the state matches.
   */
  lemma NoMatchMeansNoRule(rules: seq<Rule>, t: Table, m: Matcher, source: string, c: Config, i: nat)
    requires IsCompiled(rules, t) && Ready(rules, t, m) && c.cursor < |source| && AlwaysBuilds(rules)
    requires Advance(rules, t, m, source, c) == Failed(NoMatch(c.state, c.cursor))
    requires i < |rules| && Applies(rules[i], c.state)
    ensures m(rules[i], source[c.cursor..]).None?
  {
    var st := Advance(rules, t, m, source, c);
    assert st.Failed? && st.error.NoMatch?;
    assert c.state in t && Select(rules, t, m, source, c).None?;
    ReadyBuckets(rules, t, m, c.state);
    NoSelectionNoMatch(rules, t, m, source[c.cursor..], c.state, c.backlog, c.special, i);
  }

  /** In a compiled table the only states without a table are those no rule names. */
  lemma UnknownStateError(rules: seq<Rule>, t: Table, m: Matcher, source: string, c: Config)
    requires IsCompiled(rules, t) && Ready(rules, t, m) && c.cursor < |source|
    ensures Advance(rules, t, m, source, c) == Failed(UnknownState(c.state))
        <==> c.state != Default && forall i :: 0 <= i < |rules| && rules[i].states.Some? ==> c.state !in rules[i].states.value
  {
    KnownStatesIff(rules, c.state);
  }

  // ---------------------------------------------------------------------------
  // Properties of a scan

  /** A scan from `c` is the step from `c` followed by the scan from where it leaves off. */
  lemma RunStep(rules: seq<Rule>, t: Table, m: Matcher, source: string, c: Config)
    requires Ready(rules, t, m) && c.cursor < |source|
    ensures var st := Advance(rules, t, m, source, c);
            st.Failed? ==> Run(rules, t, m, source, c) == Outcome([], Some(st.error))
    ensures var st := Advance(rules, t, m, source, c);
            st.Stepped? ==>
              var rest := Run(rules, t, m, source, st.next);
              Run(rules, t, m, source, c) == Outcome(Emitted(st.emitted) + rest.tokens, rest.error)
  {
  }

  /** What `ScanSession.Scan` relies on for one turn of its loop, with `done` yielded so far. */
  lemma ScanTurn(rules: seq<Rule>, t: Table, m: Matcher, source: string, c: Config, done: seq<Token>)
    requires Ready(rules, t, m) && c.cursor < |source|
    ensures var st := Advance(rules, t, m, source, c);
            st.Failed? ==> Run(rules, t, m, source, c) == Outcome([], Some(st.error))
    ensures var st := Advance(rules, t, m, source, c);
            st.Stepped? ==>
              var o := Run(rules, t, m, source, c);
              var rest := Run(rules, t, m, source, st.next);
              Outcome(done + o.tokens, o.error) == Outcome((done + Emitted(st.emitted)) + rest.tokens, rest.error)
  {
    RunStep(rules, t, m, source, c);
    var st := Advance(rules, t, m, source, c);
    if st.Stepped? {
      Prepended(done, Emitted(st.emitted), Run(rules, t, m, source, st.next), Run(rules, t, m, source, c));
    }
  }

  lemma Prepended(done: seq<Token>, emitted: seq<Token>, rest: Outcome, o: Outcome)
    requires o == Outcome(emitted + rest.tokens, rest.error)
    ensures Outcome(done + o.tokens, o.error) == Outcome((done + emitted) + rest.tokens, rest.error)
  {
    assert done + (emitted + rest.tokens) == (done + emitted) + rest.tokens;
  }

  /** The texts matched by the steps of a scan from `c`, in order. */
  function Matched(rules: seq<Rule>, t: Table, m: Matcher, source: string, c: Config): seq<string>
    requires Ready(rules, t, m) && c.cursor <= |source|
    decreases |source| - c.cursor
  {
    if c.cursor == |source| then []
    else
      match Advance(rules, t, m, source, c)
      case Failed(_) => []
      case Stepped(next, _, _) => [source[c.cursor..next.cursor]] + Matched(rules, t, m, source, next)
  }

  /** A step's text heads the texts matched from where it started. */
  lemma MatchedStep(rules: seq<Rule>, t: Table, m: Matcher, source: string, c: Config)
    requires Ready(rules, t, m) && c.cursor < |source|
    ensures var st := Advance(rules, t, m, source, c);
            st.Stepped? ==>
              Matched(rules, t, m, source, c)
                == [source[c.cursor..st.next.cursor]] + Matched(rules, t, m, source, st.next)
  {
  }

  /** A suffix of `s` is the slice up to `j` followed by the suffix from `j`. */
  lemma SuffixSplit(s: string, i: nat, j: nat)
    requires i <= j <= |s|
    ensures s[i..] == s[i..j] + s[j..]
  {
  }

  function Concat(ts: seq<string>): string
  {
    if ts == [] then "" else ts[0] + Concat(ts[1..])
  }

  lemma ConcatCons(head: string, rest: seq<string>)
    ensures Concat([head] + rest) == head + Concat(rest)
  {
    assert ([head] + rest)[1..] == rest;
  }

  /**
   * A scan that ends without error consumed the whole input: its non-empty matches,
   * one after another, spell the source from `c` on.
   */
  lemma {:induction false} MatchesTileSource(rules: seq<Rule>, t: Table, m: Matcher, source: string, c: Config)
    requires Ready(rules, t, m) && c.cursor <= |source|
    requires Run(rules, t, m, source, c).error.None?
    ensures Concat(Matched(rules, t, m, source, c)) == source[c.cursor..]
    decreases |source| - c.cursor
  {
    if c.cursor < |source| {
      RunStep(rules, t, m, source, c);
      MatchedStep(rules, t, m, source, c);
      var st := Advance(rules, t, m, source, c);
      assert st.Stepped?;
      var next := st.next;
      MatchesTileSource(rules, t, m, source, next);
      var head := source[c.cursor..next.cursor];
      var rest := Matched(rules, t, m, source, next);
      ConcatCons(head, rest);
      SuffixSplit(source, c.cursor, next.cursor);
    }
  }

  /** Every match of a scan is non-empty. */
  lemma {:induction false} MatchesNonEmpty(rules: seq<Rule>, t: Table, m: Matcher, source: string, c: Config)
    requires Ready(rules, t, m) && c.cursor <= |source|
    ensures forall k :: 0 <= k < |Matched(rules, t, m, source, c)| ==> Matched(rules, t, m, source, c)[k] != ""
    decreases |source| - c.cursor
  {
    if c.cursor < |source| && Advance(rules, t, m, source, c).Stepped? {
      var next := Advance(rules, t, m, source, c).next;
      MatchesNonEmpty(rules, t, m, source, next);
      assert |source[c.cursor..next.cursor]| > 0;
    }
  }

  /** Every yielded token comes from one step, so a scan yields at most one token per match. */
  lemma {:induction false} TokensPerMatch(rules: seq<Rule>, t: Table, m: Matcher, source: string, c: Config)
    requires Ready(rules, t, m) && c.cursor <= |source|
    ensures |Run(rules, t, m, source, c).tokens| <= |Matched(rules, t, m, source, c)|
    decreases |source| - c.cursor
  {
    if c.cursor < |source| && Advance(rules, t, m, source, c).Stepped? {
      TokensPerMatch(rules, t, m, source, Advance(rules, t, m, source, c).next);
    }
  }

  // ---------------------------------------------------------------------------
  // The scanner as the source runs it

  /** The variables of one run of `__call__` (lines 296-299) and the input it reads. */
  class ScanSession {
    const rules: seq<Rule>
    const table: Table
    const matcher: Matcher
    const source: string
    var state: string
    var stack: seq<string>
    var backlog: string
    var special: Option<Token>
    var cursor: nat

    ghost predicate Valid()
      reads this
    {
      Ready(rules, table, matcher) && cursor <= |source|
    }

    function Snapshot(): Config
      reads this
    {
      Config(state, stack, backlog, special, cursor)
    }

    constructor(rules: seq<Rule>, table: Table, matcher: Matcher, source: string)
      requires Ready(rules, table, matcher)
      ensures Valid() && Snapshot() == Start
      ensures this.rules == rules && this.table == table && this.matcher == matcher && this.source == source
    {
      this.rules := rules;
      this.table := table;
      this.matcher := matcher;
      this.source := source;
      state := Default;
      stack := [];
      backlog := "";
      special := None;
      cursor := 0;
    }

    /**
     * Lines 302-323: bucket `k` of the current state matches at the cursor; the rule
     * whose group matched fires, with its factory's token when it runs one, unless that
     * factory declines.
     */
    method TryAt(ids: seq<nat>, k: nat) returns (fire: Option<Fire>)
      requires Valid() && ValidIds(rules, ids)
      ensures fire == TryBucket(rules, ids, k, source[cursor..], matcher, backlog, special)
    {
      var input := source[cursor..];
      // `pat.match(source)` and the rule whose group matched
      var hit := Longest(rules, ids, |ids|, input, matcher);
      if hit.None? {
        return None;
      }
      var id := ids[hit.value.pos];
      var defn := rules[id];
      var token: Option<Token> := None;
      if RunsFactory(defn) {
        token := defn.factory(backlog + input[..hit.value.len], defn.kind, special);
        if token.None? {
          return None;
        }
      }
      fire := Some(Fire(k, id, hit.value.len, token));
    }

    /** Lines 301-325: the buckets of the current state tried from the highest priority down. */
    method Choose() returns (fire: Option<Fire>)
      requires Valid() && state in table
      ensures fire == Select(rules, table, matcher, source, Snapshot())
    {
      ReadyBuckets(rules, table, matcher, state);
      var buckets := table[state];
      ghost var input := source[cursor..];
      var k := 0;
      while k < |buckets|
        invariant 0 <= k <= |buckets|
        invariant SelectFrom(rules, buckets, 0, input, matcher, backlog, special)
                  == SelectFrom(rules, buckets, k, input, matcher, backlog, special)
        decreases |buckets| - k
      {
        fire := TryAt(buckets[k].ids, k);
        if fire.Some? {
          return;
        }
        k := k + 1;
      }
      fire := None;
    }

    /**
     * Lines 326-340: the fired rule `defn` moves state and stack, advances past its
     * `text`, and settles backlog and special token by its category.  Nothing changes
     * when the transition finds the stack empty.
     */
    method Settle(defn: Rule, text: string, token: Option<Token>) returns (moved: bool, emitted: Option<Token>)
      requires Valid() && cursor + |text| <= |source|
      modifies this
      ensures Valid()
      ensures moved <==> Commit(defn, old(Snapshot()), text, token).Some?
      ensures moved ==> Commit(defn, old(Snapshot()), text, token) == Some((Snapshot(), emitted))
      ensures !moved ==> emitted.None? && Snapshot() == old(Snapshot())
    {
      ghost var c := Snapshot();
      var next := Apply(defn.transition, state, defn.to, stack);
      if next.None? {
        return false, None;
      }
      state, stack := next.value.state, next.value.stack;
      cursor := cursor + |text|;
      moved, emitted := true, None;
      match defn.category {
        case Tok =>
          backlog, special := "", None;
          emitted := token;
        case More =>
          backlog := backlog + text;
        case Skip =>
          backlog := "";
        case Special =>
          special := token;
      }
    }

    /**
     * One iteration of the `while source` loop (lines 300-343): the variables move as
     * `Advance` says; on a lexical error they stay as they were.
     */
    method Step() returns (emitted: Option<Token>, error: Option<LexError>)
      requires Valid() && cursor < |source|
      modifies this
      ensures Valid()
      ensures match Advance(rules, table, matcher, source, old(Snapshot()))
              case Failed(e) => error == Some(e) && emitted.None? && Snapshot() == old(Snapshot())
              case Stepped(next, _, out) => error.None? && emitted == out && Snapshot() == next
    {
      ghost var c := Snapshot();
      ghost var res := Advance(rules, table, matcher, source, c);
      if state !in table {
        assert res == Failed(UnknownState(state));
        return None, Some(UnknownState(state));
      }
      var fire := Choose();
      if fire.None? {
        assert res == Failed(NoMatch(state, cursor));
        return None, Some(NoMatch(state, cursor));
      }
      var f := fire.value;
      if f.len == 0 {
        assert res == Failed(EmptyMatch(state, cursor));
        return None, Some(EmptyMatch(state, cursor));
      }
      var defn := rules[f.id];
      var text := source[cursor..cursor + f.len];
      var moved;
      moved, emitted := Settle(defn, text, f.token);
      if !moved {
        assert res == Failed(EmptyStack(state, cursor));
        return None, Some(EmptyStack(state, cursor));
      }
      error := None;
      assert Select(rules, table, matcher, source, c) == Some(f);
      assert text == source[c.cursor..c.cursor + f.len];
      assert Commit(rules[f.id], c, text, f.token) == Some((Snapshot(), emitted));
      assert res == Stepped(Snapshot(), f, emitted);
    }

    /**
     * The `while source` loop (line 300): steps until the input is consumed or a lexical
     * error stops it; the tokens are those yielded before the error.
     */
    method Scan() returns (tokens: seq<Token>, error: Option<LexError>)
      requires Valid()
      modifies this
      ensures Outcome(tokens, error) == Run(rules, table, matcher, source, old(Snapshot()))
    {
      ghost var start := Snapshot();
      tokens, error := [], None;
      while cursor < |source|
        invariant Valid()
        invariant Run(rules, table, matcher, source, start)
                  == Outcome(tokens + Run(rules, table, matcher, source, Snapshot()).tokens,
                             Run(rules, table, matcher, source, Snapshot()).error)
        decreases |source| - cursor
      {
        ScanTurn(rules, table, matcher, source, Snapshot(), tokens);
        var emitted, err := Step();
        if err.Some? {
          error := err;
          return;
        }
        tokens := tokens + Emitted(emitted);
      }
    }
  }
}
