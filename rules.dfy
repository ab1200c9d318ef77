/**
 * A token definition (src/syndantic/tokenizer/regex.py:82-231): the fields of
 * `BaseTokenizerDefinition` plus the `is_a` discriminator of its four subclasses.
 * The pattern text and `ignore_case` are kept only as inputs of the abstract
 * matcher; the factory reference is the factory itself.
 */
module Rules {
  import opened Wrappers
  import opened Tokens
  import opened Transitions

  /** `is_a` of the subclasses `Skip`, `More`, `Special` and `Tok`. */
  datatype Category = Skip | More | Special | Tok

  datatype Rule = Rule(
    pattern: string,
    kind: Option<string>,
    // None: every state; Some([]): no state; Some(l): exactly the states in l
    states: Option<seq<string>>,
    transition: StateTransition,
    to: Option<string>,
    factory: Factory,
    ignoreCase: bool,
    priority: int,
    forceRunFactory: bool,
    category: Category)

  /**
   * Whether a match of `r` runs its factory (line 317): TOKEN and SPECIAL rules always do,
   * SKIP and MORE rules only when `forceRunFactory` is set (lines 190-200).
   */
  function RunsFactory(r: Rule): (runs: bool)
    ensures r.category.Tok? || r.category.Special? ==> runs
    ensures r.category.Skip? || r.category.More? ==> (runs <==> r.forceRunFactory)
  {
    r.forceRunFactory || !(r.category.Skip? || r.category.More?)
  }
}
