/**
 * The rule compiler `RegexTokenizer.__init__` (src/syndantic/tokenizer/regex.py:237-292).
 *
 * Each definition is identified by its index `idx` (the source names its regex group
 * `__rule{idx}__`).  A compiled table maps each known lexical state to its buckets, one
 * per distinct priority, highest first; a bucket lists the ids of the rules of that
 * priority active in the state: first those that list the state explicitly, in
 * declaration order, then those active in every state (`states=None`), as the
 * `extend` at line 284 orders them.
 *
 * The source as written does not run; the model follows its evident intent:
 *  - lines 247-253 and 275-278 are broken chained assignments (`specs = dict[...] = {...}`);
 *    meant: annotated dicts, `specs` starting as `{"DEFAULT": {}}` (line 253) and
 *    `_regex_patterns` as `{}` (line 278);
 *  - line 263 reads `regex_spec`, the field at line 85 is `regexp_spec`;
 *  - lines 269 and 273 overwrite a bucket with one pattern; meant (see `extend` at 284): append;
 *  - line 270 iterates `definition.states` even when it is None; meant: only for explicit lists.
 * Pattern text, `(?i)` prefixing and `regex.compile` of the `|`-joined groups
 * (lines 264-266, 287) belong to the regex engine and are not modelled here.
 */
module Compiler {
  import opened Wrappers
  import opened Rules

  /** The initial lexical state. */
  const Default: string := "DEFAULT"

  /** A compiled priority level: its priority and the ids of its rules, in match order. */
  datatype Bucket = Bucket(priority: int, ids: seq<nat>)

  type Table = map<string, seq<Bucket>>

  /** `specs` of the source: explicit-state rules by state, then by priority. */
  type Specs = map<string, map<int, seq<nat>>>

  /** `any_specs` of the source: every-state rules by priority. */
  type AnySpecs = map<int, seq<nat>>

  // ---------------------------------------------------------------------------
  // Reference definitions

  /** Whether rule `r` takes part in lexical state `s`. */
  predicate Applies(r: Rule, s: string)
  {
    r.states.None? || s in r.states.value
  }

  /** How often `s` occurs in `l`. */
  function Count(l: seq<string>, s: string): nat
  {
    if l == [] then 0 else Count(l[..|l| - 1], s) + (if l[|l| - 1] == s then 1 else 0)
  }

  /** `id` repeated `n` times. */
  function Repeat(id: nat, n: nat): seq<nat>
  {
    if n == 0 then [] else Repeat(id, n - 1) + [id]
  }

  /** What rule `r`, with id `id`, adds to the explicit list of state `s` at priority `p`. */
  function Listed(r: Rule, id: nat, s: string, p: int): seq<nat>
  {
    if r.states.Some? && r.priority == p then Repeat(id, Count(r.states.value, s)) else []
  }

  /** Ids among the first `n` rules that explicitly list `s`, at priority `p` (once per listing). */
  function Explicit(rules: seq<Rule>, n: nat, s: string, p: int): seq<nat>
    requires n <= |rules|
  {
    if n == 0 then [] else Explicit(rules, n - 1, s, p) + Listed(rules[n - 1], n - 1, s, p)
  }

  /** Ids among the first `n` rules that apply in every state, at priority `p`. */
  function Wildcard(rules: seq<Rule>, n: nat, p: int): seq<nat>
    requires n <= |rules|
  {
    if n == 0 then []
    else Wildcard(rules, n - 1, p) + (if rules[n - 1].states.None? && rules[n - 1].priority == p then [n - 1] else [])
  }

  function Elements(l: seq<string>): set<string>
  {
    set i | 0 <= i < |l| :: l[i]
  }

  /** States named by the explicit lists of the first `n` rules. */
  function Named(rules: seq<Rule>, n: nat): set<string>
    requires n <= |rules|
  {
    if n == 0 then {}
    else Named(rules, n - 1) + (if rules[n - 1].states.Some? then Elements(rules[n - 1].states.value) else {})
  }

  /** Priorities of the first `n` rules that explicitly list `s`. */
  function ExplicitPriorities(rules: seq<Rule>, n: nat, s: string): set<int>
    requires n <= |rules|
  {
    if n == 0 then {}
    else
      var r := rules[n - 1];
      ExplicitPriorities(rules, n - 1, s) + (if r.states.Some? && s in r.states.value then {r.priority} else {})
  }

  /** Priorities of the first `n` rules that apply in every state. */
  function WildcardPriorities(rules: seq<Rule>, n: nat): set<int>
    requires n <= |rules|
  {
    if n == 0 then {}
    else WildcardPriorities(rules, n - 1) + (if rules[n - 1].states.None? then {rules[n - 1].priority} else {})
  }

  /** The states that get a table: DEFAULT and every explicitly named state. */
  function KnownStates(rules: seq<Rule>): set<string>
  {
    {Default} + Named(rules, |rules|)
  }

  /** The priorities present in state `s`. */
  function Priorities(rules: seq<Rule>, s: string): set<int>
  {
    ExplicitPriorities(rules, |rules|, s) + WildcardPriorities(rules, |rules|)
  }

  /** The ids of bucket `p` in state `s`. */
  function Members(rules: seq<Rule>, s: string, p: int): seq<nat>
  {
    Explicit(rules, |rules|, s, p) + Wildcard(rules, |rules|, p)
  }

  predicate Descending(bs: seq<Bucket>)
  {
    forall j, k :: 0 <= j < k < |bs| ==> bs[j].priority > bs[k].priority
  }

  function PrioritiesOf(bs: seq<Bucket>): set<int>
  {
    set k | 0 <= k < |bs| :: bs[k].priority
  }

  /** `bs` is the bucket list of state `s`: one bucket per priority, highest first. */
  predicate StateCompiled(rules: seq<Rule>, s: string, bs: seq<Bucket>)
  {
    && Descending(bs)
    && PrioritiesOf(bs) == Priorities(rules, s)
    && forall k :: 0 <= k < |bs| ==> bs[k].ids == Members(rules, s, bs[k].priority)
  }

  /** `t` is the compiled table of `rules`. */
  predicate IsCompiled(rules: seq<Rule>, t: Table)
  {
    && t.Keys == KnownStates(rules)
    && forall s :: s in t ==> StateCompiled(rules, s, t[s])
  }

  function Lookup(m: map<int, seq<nat>>, p: int): seq<nat>
  {
    if p in m then m[p] else []
  }

  // ---------------------------------------------------------------------------
  // Properties of the reference definitions

  lemma {:induction false} CountPositive(l: seq<string>, s: string)
    ensures Count(l, s) > 0 <==> s in l
  {
    if l != [] {
      CountPositive(l[..|l| - 1], s);
      assert l == l[..|l| - 1] + [l[|l| - 1]];
    }
  }

  lemma {:induction false} CountPrefix(l: seq<string>, j: nat, s: string)
    requires j < |l|
    ensures Count(l[..j + 1], s) == Count(l[..j], s) + (if l[j] == s then 1 else 0)
  {
    assert l[..j + 1][..j] == l[..j];
  }

  lemma {:induction false} RepeatContents(id: nat, n: nat, i: nat)
    ensures i in Repeat(id, n) <==> n > 0 && i == id
  {
    if n > 0 {
      RepeatContents(id, n - 1, i);
    }
  }

  /** A rule is in an explicit list exactly when it lists the state at that priority. */
  lemma ListedIff(r: Rule, id: nat, s: string, p: int, i: nat)
    ensures i in Listed(r, id, s, p) <==> i == id && r.states.Some? && s in r.states.value && r.priority == p
  {
    if r.states.Some? && r.priority == p {
      CountPositive(r.states.value, s);
      RepeatContents(id, Count(r.states.value, s), i);
    }
  }

  /** A rule is in an explicit list exactly when it lists the state at that priority. */
  lemma {:induction false} ExplicitIff(rules: seq<Rule>, n: nat, s: string, p: int, i: nat)
    requires n <= |rules|
    ensures i in Explicit(rules, n, s, p)
        <==> i < n && rules[i].states.Some? && s in rules[i].states.value && rules[i].priority == p
  {
    if n > 0 {
      var earlier := Explicit(rules, n - 1, s, p);
      var added := Listed(rules[n - 1], n - 1, s, p);
      assert Explicit(rules, n, s, p) == earlier + added;
      assert i in earlier + added <==> i in earlier || i in added;
      ExplicitIff(rules, n - 1, s, p, i);
      ListedIff(rules[n - 1], n - 1, s, p, i);
    }
  }

  lemma {:induction false} WildcardIff(rules: seq<Rule>, n: nat, p: int, i: nat)
    requires n <= |rules|
    ensures i in Wildcard(rules, n, p) <==> i < n && rules[i].states.None? && rules[i].priority == p
  {
    if n > 0 {
      WildcardIff(rules, n - 1, p, i);
    }
  }

  lemma {:induction false} ExplicitPrioritiesIff(rules: seq<Rule>, n: nat, s: string, p: int)
    requires n <= |rules|
    ensures p in ExplicitPriorities(rules, n, s) <==> Explicit(rules, n, s, p) != []
  {
    if n > 0 {
      ExplicitPrioritiesIff(rules, n - 1, s, p);
      var added := Listed(rules[n - 1], n - 1, s, p);
      ListedIff(rules[n - 1], n - 1, s, p, n - 1);
      assert added != [] ==> added[0] in added;
    }
  }

  lemma {:induction false} WildcardPrioritiesIff(rules: seq<Rule>, n: nat, p: int)
    requires n <= |rules|
    ensures p in WildcardPriorities(rules, n) <==> Wildcard(rules, n, p) != []
  {
    if n > 0 {
      WildcardPrioritiesIff(rules, n - 1, p);
    }
  }

  lemma {:induction false} NamedIff(rules: seq<Rule>, n: nat, s: string)
    requires n <= |rules|
    ensures s in Named(rules, n) <==> exists i :: 0 <= i < n && rules[i].states.Some? && s in rules[i].states.value
  {
    if n > 0 {
      NamedIff(rules, n - 1, s);
    }
  }

  /** A state no explicit list names has no explicit rules at all. */
  lemma {:induction false} UnnamedHasNoExplicit(rules: seq<Rule>, n: nat, s: string)
    requires n <= |rules| && s !in Named(rules, n)
    ensures ExplicitPriorities(rules, n, s) == {}
    ensures forall p :: Explicit(rules, n, s, p) == []
  {
    if n > 0 {
      UnnamedHasNoExplicit(rules, n - 1, s);
      var r := rules[n - 1];
      if r.states.Some? {
        assert s !in r.states.value;
        CountPositive(r.states.value, s);
      }
    }
  }

  /** The members of bucket `p` in state `s` are exactly the rules of priority `p` active in `s`. */
  lemma MembersIff(rules: seq<Rule>, s: string, p: int, i: nat)
    ensures i in Members(rules, s, p) <==> i < |rules| && Applies(rules[i], s) && rules[i].priority == p
  {
    ExplicitIff(rules, |rules|, s, p, i);
    WildcardIff(rules, |rules|, p, i);
  }

  /** The priorities of state `s` are exactly the priorities of the rules active in `s`. */
  lemma PrioritiesIff(rules: seq<Rule>, s: string, p: int)
    ensures p in Priorities(rules, s) <==> exists i :: 0 <= i < |rules| && Applies(rules[i], s) && rules[i].priority == p
  {
    ExplicitPrioritiesIff(rules, |rules|, s, p);
    WildcardPrioritiesIff(rules, |rules|, p);
    var ms := Members(rules, s, p);
    if ms != [] {
      MembersIff(rules, s, p, ms[0]);
    }
    forall i | 0 <= i < |rules| && Applies(rules[i], s) && rules[i].priority == p
      ensures p in Priorities(rules, s)
    {
      MembersIff(rules, s, p, i);
    }
  }

  /** The states with a table are DEFAULT and exactly the states some explicit list names. */
  lemma KnownStatesIff(rules: seq<Rule>, s: string)
    ensures s in KnownStates(rules)
        <==> s == Default || exists i :: 0 <= i < |rules| && rules[i].states.Some? && s in rules[i].states.value
  {
    NamedIff(rules, |rules|, s);
  }

  // ---------------------------------------------------------------------------
  // Properties of a compiled table

  /** Every id in `t` is the index of a rule. */
  predicate IdsInRange(rules: seq<Rule>, t: Table)
  {
    forall s, k, j :: s in t && 0 <= k < |t[s]| && 0 <= j < |t[s][k].ids| ==> t[s][k].ids[j] < |rules|
  }

  lemma CompiledIdsInRange(rules: seq<Rule>, t: Table)
    requires IsCompiled(rules, t)
    ensures IdsInRange(rules, t)
  {
    forall s, k, j | s in t && 0 <= k < |t[s]| && 0 <= j < |t[s][k].ids|
      ensures t[s][k].ids[j] < |rules|
    {
      MembersIff(rules, s, t[s][k].priority, t[s][k].ids[j]);
    }
  }

  /**
   * In a compiled table a rule sits in some bucket of state `s` exactly when it applies
   * in `s`, and only in the bucket of its own priority.
   */
  lemma CompiledMembership(rules: seq<Rule>, t: Table, s: string, i: nat)
    requires IsCompiled(rules, t) && s in t && i < |rules|
    ensures Applies(rules[i], s) <==> exists k :: 0 <= k < |t[s]| && i in t[s][k].ids
    ensures forall k :: 0 <= k < |t[s]| && i in t[s][k].ids ==> t[s][k].priority == rules[i].priority
  {
    forall k | 0 <= k < |t[s]| && i in t[s][k].ids
      ensures t[s][k].priority == rules[i].priority && Applies(rules[i], s)
    {
      MembersIff(rules, s, t[s][k].priority, i);
    }
    if Applies(rules[i], s) {
      PrioritiesIff(rules, s, rules[i].priority);
      assert rules[i].priority in PrioritiesOf(t[s]);
      var k :| 0 <= k < |t[s]| && t[s][k].priority == rules[i].priority;
      MembersIff(rules, s, rules[i].priority, i);
      assert i in t[s][k].ids;
    }
  }

  /** No bucket of a compiled table is empty. */
  lemma CompiledBucketsNonEmpty(rules: seq<Rule>, t: Table, s: string, k: nat)
    requires IsCompiled(rules, t) && s in t && k < |t[s]|
    ensures t[s][k].ids != []
  {
    var p := t[s][k].priority;
    assert p in PrioritiesOf(t[s]);
    PrioritiesIff(rules, s, p);
    var i :| 0 <= i < |rules| && Applies(rules[i], s) && rules[i].priority == p;
    MembersIff(rules, s, p, i);
  }

  /** A rule with `states=None` is in a bucket of every state's table. */
  lemma WildcardInEveryState(rules: seq<Rule>, t: Table, i: nat)
    requires IsCompiled(rules, t) && i < |rules| && rules[i].states.None?
    ensures forall s :: s in t ==> exists k :: 0 <= k < |t[s]| && i in t[s][k].ids
  {
    forall s | s in t
      ensures exists k :: 0 <= k < |t[s]| && i in t[s][k].ids
    {
      CompiledMembership(rules, t, s, i);
    }
  }

  /** A rule with `states=[]` is in no bucket at all. */
  lemma EmptyListInNoState(rules: seq<Rule>, t: Table, i: nat)
    requires IsCompiled(rules, t) && i < |rules| && rules[i].states == Some([])
    ensures forall s, k :: s in t && 0 <= k < |t[s]| ==> i !in t[s][k].ids
  {
    forall s, k | s in t && 0 <= k < |t[s]|
      ensures i !in t[s][k].ids
    {
      assert !Applies(rules[i], s);
      CompiledMembership(rules, t, s, i);
    }
  }

  /**
   * A rule with an explicit list gets a table entry for each listed state and is in a
   * bucket of state `s` exactly when `s` is listed.
   */
  lemma ExplicitOnlyInListed(rules: seq<Rule>, t: Table, i: nat)
    requires IsCompiled(rules, t) && i < |rules| && rules[i].states.Some?
    ensures forall s :: s in rules[i].states.value ==> s in t
    ensures forall s :: s in t ==> ((exists k :: 0 <= k < |t[s]| && i in t[s][k].ids) <==> s in rules[i].states.value)
  {
    forall s | s in rules[i].states.value
      ensures s in t
    {
      KnownStatesIff(rules, s);
    }
    forall s | s in t
      ensures (exists k :: 0 <= k < |t[s]| && i in t[s][k].ids) <==> s in rules[i].states.value
    {
      CompiledMembership(rules, t, s, i);
    }
  }

  // ---------------------------------------------------------------------------
  // The compiler

  /** `specs` after the first `n` definitions have been registered (lines 259-273). */
  ghost predicate SpecsOf(rules: seq<Rule>, n: nat, specs: Specs)
    requires n <= |rules|
  {
    && specs.Keys == {Default} + Named(rules, n)
    && (forall s :: s in specs ==> specs[s].Keys == ExplicitPriorities(rules, n, s))
    && (forall s, p :: s in specs && p in specs[s] ==> specs[s][p] == Explicit(rules, n, s, p))
  }

  /** `any_specs` after the first `n` definitions have been registered (lines 268-269). */
  ghost predicate AnySpecsOf(rules: seq<Rule>, n: nat, anySpecs: AnySpecs)
    requires n <= |rules|
  {
    && anySpecs.Keys == WildcardPriorities(rules, n)
    && forall p :: p in anySpecs ==> anySpecs[p] == Wildcard(rules, n, p)
  }

  /** Line 273 with the intended append: add `idx` to the list of `name` at priority `prio`. */
  function Register(specs: Specs, name: string, prio: int, idx: nat): (out: Specs)
    ensures out.Keys == specs.Keys + {name}
    ensures out[name].Keys == (if name in specs then specs[name].Keys else {}) + {prio}
    ensures out[name][prio] == (if name in specs then Lookup(specs[name], prio) else []) + [idx]
    ensures forall s, p :: s in out && p in out[s] && (s != name || p != prio) ==> s in specs && p in specs[s] && out[s][p] == specs[s][p]
    ensures forall s :: s in specs && s != name ==> out[s] == specs[s]
  {
    var inner := if name in specs then specs[name] else map[];
    specs[name := inner[prio := Lookup(inner, prio) + [idx]]]
  }

  lemma ElementsIff(l: seq<string>, x: string)
    ensures x in Elements(l) <==> x in l
  {
    if x in l {
      var i :| 0 <= i < |l| && l[i] == x;
      assert l[i] in Elements(l);
    }
  }

  /**
   * `specs` while rule `idx` is being registered, after the first `j` entries of its
   * explicit list.
   */
  ghost predicate PartlyListed(rules: seq<Rule>, idx: nat, j: nat, specs: Specs)
    requires idx < |rules| && rules[idx].states.Some? && j <= |rules[idx].states.value|
  {
    var done := rules[idx].states.value[..j];
    var prio := rules[idx].priority;
    && (forall s :: s in specs <==> s == Default || s in Named(rules, idx) || s in done)
    && (forall s :: s in specs ==>
          specs[s].Keys == ExplicitPriorities(rules, idx, s) + (if s in done then {prio} else {}))
    && (forall s, p :: s in specs && p in specs[s] ==>
          specs[s][p] == Explicit(rules, idx, s, p) + (if p == prio then Repeat(idx, Count(done, s)) else []))
  }

  lemma ListingStarts(rules: seq<Rule>, idx: nat, specs: Specs)
    requires idx < |rules| && rules[idx].states.Some?
    requires SpecsOf(rules, idx, specs)
    ensures PartlyListed(rules, idx, 0, specs)
  {
    assert rules[idx].states.value[..0] == [];
  }

  lemma ListingEnds(rules: seq<Rule>, idx: nat, specs: Specs)
    requires idx < |rules| && rules[idx].states.Some?
    requires PartlyListed(rules, idx, |rules[idx].states.value|, specs)
    ensures SpecsOf(rules, idx + 1, specs)
  {
    var l := rules[idx].states.value;
    assert l[..|l|] == l;
    forall s
      ensures s in Named(rules, idx + 1) <==> s in Named(rules, idx) || s in l
    {
      ElementsIff(l, s);
    }
  }

  /** Before `l[j]` is registered, its list at the rule's priority holds the earlier listings. */
  lemma ListingBefore(rules: seq<Rule>, idx: nat, j: nat, specs: Specs)
    requires idx < |rules| && rules[idx].states.Some? && j < |rules[idx].states.value|
    requires PartlyListed(rules, idx, j, specs)
    ensures var l := rules[idx].states.value;
            var prio := rules[idx].priority;
            (if l[j] in specs then Lookup(specs[l[j]], prio) else [])
              == Explicit(rules, idx, l[j], prio) + Repeat(idx, Count(l[..j], l[j]))
  {
    var l := rules[idx].states.value;
    var prio := rules[idx].priority;
    var name := l[j];
    if !(name in specs && prio in specs[name]) {
      if name !in specs {
        UnnamedHasNoExplicit(rules, idx, name);
      }
      ExplicitPrioritiesIff(rules, idx, name, prio);
      CountPositive(l[..j], name);
    }
  }

  /** Registering `l[j]` appends one more `idx` to the listings of `l[j]` so far. */
  lemma ListingGrows(rules: seq<Rule>, idx: nat, j: nat, before: seq<nat>)
    requires idx < |rules| && rules[idx].states.Some? && j < |rules[idx].states.value|
    requires var l := rules[idx].states.value;
             before == Explicit(rules, idx, l[j], rules[idx].priority) + Repeat(idx, Count(l[..j], l[j]))
    ensures var l := rules[idx].states.value;
            before + [idx] == Explicit(rules, idx, l[j], rules[idx].priority) + Repeat(idx, Count(l[..j + 1], l[j]))
  {
    var l := rules[idx].states.value;
    var c := Count(l[..j], l[j]);
    CountPrefix(l, j, l[j]);
    assert Repeat(idx, c + 1) == Repeat(idx, c) + [idx];
    assert before + [idx] == Explicit(rules, idx, l[j], rules[idx].priority) + (Repeat(idx, c) + [idx]);
  }

  /** Every other list is what it was, and the occurrence count of its state is unchanged. */
  lemma ListingMiss(rules: seq<Rule>, idx: nat, j: nat, specs: Specs, s: string, p: int)
    requires idx < |rules| && rules[idx].states.Some? && j < |rules[idx].states.value|
    requires PartlyListed(rules, idx, j, specs)
    requires s != rules[idx].states.value[j] || p != rules[idx].priority
    requires var out := Register(specs, rules[idx].states.value[j], rules[idx].priority, idx);
             s in out && p in out[s]
    ensures var l := rules[idx].states.value;
            var out := Register(specs, l[j], rules[idx].priority, idx);
            out[s][p] == Explicit(rules, idx, s, p)
                         + (if p == rules[idx].priority then Repeat(idx, Count(l[..j + 1], s)) else [])
  {
    CountPrefix(rules[idx].states.value, j, s);
  }

  lemma ListingStep(rules: seq<Rule>, idx: nat, j: nat, specs: Specs)
    requires idx < |rules| && rules[idx].states.Some? && j < |rules[idx].states.value|
    requires PartlyListed(rules, idx, j, specs)
    ensures PartlyListed(rules, idx, j + 1, Register(specs, rules[idx].states.value[j], rules[idx].priority, idx))
  {
    var l := rules[idx].states.value;
    var prio := rules[idx].priority;
    var name := l[j];
    var out := Register(specs, name, prio, idx);
    assert l[..j + 1] == l[..j] + [name];
    if name !in specs {
      UnnamedHasNoExplicit(rules, idx, name);
    }
    forall s, p | s in out && p in out[s]
      ensures out[s][p] == Explicit(rules, idx, s, p) + (if p == prio then Repeat(idx, Count(l[..j + 1], s)) else [])
    {
      if s == name && p == prio {
        ListingBefore(rules, idx, j, specs);
        ListingGrows(rules, idx, j, if name in specs then Lookup(specs[name], prio) else []);
      } else {
        ListingMiss(rules, idx, j, specs, s, p);
      }
    }
  }

  /** Appends rule `idx` to its priority's list in every state its explicit list names (lines 270-273). */
  method AddListed(rules: seq<Rule>, idx: nat, before: Specs) returns (specs: Specs)
    requires idx < |rules| && rules[idx].states.Some?
    requires SpecsOf(rules, idx, before)
    ensures SpecsOf(rules, idx + 1, specs)
  {
    var l := rules[idx].states.value;
    var prio := rules[idx].priority;
    specs := before;
    ListingStarts(rules, idx, specs);
    var j := 0;
    while j < |l|
      invariant 0 <= j <= |l|
      invariant PartlyListed(rules, idx, j, specs)
    {
      ListingStep(rules, idx, j, specs);
      specs := Register(specs, l[j], prio, idx);
      j := j + 1;
    }
    ListingEnds(rules, idx, specs);
  }

  /** `specs[s]` after the first `n` definitions: the explicit lists of state `s` by priority. */
  ghost function ListsOf(rules: seq<Rule>, n: nat, s: string): map<int, seq<nat>>
    requires n <= |rules|
  {
    map p | p in ExplicitPriorities(rules, n, s) :: Explicit(rules, n, s, p)
  }

  /** `specs` after the first `n` definitions. */
  ghost function SpecsAfter(rules: seq<Rule>, n: nat): Specs
    requires n <= |rules|
  {
    map s | s in {Default} + Named(rules, n) :: ListsOf(rules, n, s)
  }

  /** `any_specs` after the first `n` definitions. */
  ghost function AnySpecsAfter(rules: seq<Rule>, n: nat): AnySpecs
    requires n <= |rules|
  {
    map p | p in WildcardPriorities(rules, n) :: Wildcard(rules, n, p)
  }

  /** The registries after `n` definitions are exactly those described by `SpecsOf` and `AnySpecsOf`. */
  lemma RegistriesAfter(rules: seq<Rule>, n: nat, specs: Specs, anySpecs: AnySpecs)
    requires n <= |rules|
    ensures SpecsOf(rules, n, specs) && AnySpecsOf(rules, n, anySpecs)
        <==> specs == SpecsAfter(rules, n) && anySpecs == AnySpecsAfter(rules, n)
  {
    if SpecsOf(rules, n, specs) {
      forall s | s in specs
        ensures specs[s] == ListsOf(rules, n, s)
      {
      }
    }
  }

  /** Registering an every-state rule leaves the explicit lists alone. */
  lemma WildcardKeepsLists(rules: seq<Rule>, idx: nat, specs: Specs)
    requires idx < |rules| && rules[idx].states.None?
    requires SpecsOf(rules, idx, specs)
    ensures SpecsOf(rules, idx + 1, specs)
  {
  }

  /** Registering an every-state rule appends it to its priority's list in `any_specs`. */
  lemma WildcardRegistered(rules: seq<Rule>, idx: nat, anySpecs: AnySpecs)
    requires idx < |rules| && rules[idx].states.None?
    requires AnySpecsOf(rules, idx, anySpecs)
    ensures var prio := rules[idx].priority;
            AnySpecsOf(rules, idx + 1, anySpecs[prio := Lookup(anySpecs, prio) + [idx]])
  {
    WildcardPrioritiesIff(rules, idx, rules[idx].priority);
  }

  /** Registering a rule with an explicit list leaves `any_specs` alone. */
  lemma ListedLeavesWildcards(rules: seq<Rule>, idx: nat, anySpecs: AnySpecs)
    requires idx < |rules| && rules[idx].states.Some?
    requires AnySpecsOf(rules, idx, anySpecs)
    ensures AnySpecsOf(rules, idx + 1, anySpecs)
  {
  }

  /** Registers definition `idx` in `any_specs` or in the lists of the states it names (lines 260-273). */
  method RegisterDefinition(rules: seq<Rule>, idx: nat, specs: Specs, anySpecs: AnySpecs)
    returns (specs': Specs, anySpecs': AnySpecs)
    requires idx < |rules|
    requires specs == SpecsAfter(rules, idx) && anySpecs == AnySpecsAfter(rules, idx)
    ensures specs' == SpecsAfter(rules, idx + 1) && anySpecs' == AnySpecsAfter(rules, idx + 1)
  {
    RegistriesAfter(rules, idx, specs, anySpecs);
    var definition := rules[idx];
    var prio := definition.priority;
    if definition.states.None? {
      WildcardKeepsLists(rules, idx, specs);
      WildcardRegistered(rules, idx, anySpecs);
      specs', anySpecs' := specs, anySpecs[prio := Lookup(anySpecs, prio) + [idx]];
    } else {
      ListedLeavesWildcards(rules, idx, anySpecs);
      specs' := AddListed(rules, idx, specs);
      anySpecs' := anySpecs;
    }
    RegistriesAfter(rules, idx + 1, specs', anySpecs');
  }

  /** Before any definition is registered only DEFAULT has a (still empty) table (line 259). */
  lemma NothingRegistered(rules: seq<Rule>)
    ensures SpecsAfter(rules, 0) == map[Default := map[]] && AnySpecsAfter(rules, 0) == map[]
  {
    assert Named(rules, 0) == {};
    RegistriesAfter(rules, 0, map[Default := map[]], map[]);
  }

  /** Registers all definitions: lines 259-273 with the intended appends. */
  method CollectSpecs(rules: seq<Rule>) returns (specs: Specs, anySpecs: AnySpecs)
    ensures SpecsOf(rules, |rules|, specs) && AnySpecsOf(rules, |rules|, anySpecs)
  {
    specs := map[Default := map[]];
    anySpecs := map[];
    NothingRegistered(rules);
    var idx := 0;
    while idx < |rules|
      invariant idx <= |rules|
      invariant specs == SpecsAfter(rules, idx) && anySpecs == AnySpecsAfter(rules, idx)
    {
      specs, anySpecs := RegisterDefinition(rules, idx, specs, anySpecs);
      idx := idx + 1;
    }
    RegistriesAfter(rules, |rules|, specs, anySpecs);
  }

  /** A set of priorities is empty or has a member (set extensionality, stated for the `:|` picks below). */
  lemma EmptyOrInhabited(s: set<int>)
    ensures s == {} || exists x :: x in s
  {
    if !exists x :: x in s {
      assert s == {};
    }
  }

  /** Adds the every-state lists to one state's lists (lines 280-284). */
  method MergeWildcards(stateSpecs: map<int, seq<nat>>, anySpecs: AnySpecs) returns (merged: map<int, seq<nat>>)
    ensures merged.Keys == stateSpecs.Keys + anySpecs.Keys
    ensures forall p :: p in merged ==> merged[p] == Lookup(stateSpecs, p) + Lookup(anySpecs, p)
  {
    merged := stateSpecs;
    var pending := anySpecs.Keys;
    while pending != {}
      invariant pending <= anySpecs.Keys
      invariant merged.Keys == stateSpecs.Keys + (anySpecs.Keys - pending)
      invariant forall p :: p in merged ==>
        merged[p] == Lookup(stateSpecs, p) + (if p in pending then [] else Lookup(anySpecs, p))
      decreases pending
    {
      EmptyOrInhabited(pending);
      var prio :| prio in pending;
      if prio !in merged {
        merged := merged[prio := anySpecs[prio]];
      } else {
        merged := merged[prio := merged[prio] + anySpecs[prio]];
      }
      pending := pending - {prio};
    }
  }

  lemma {:induction false} MaxExists(ps: set<int>)
    requires ps != {}
    ensures exists m :: m in ps && forall q :: q in ps ==> q <= m
  {
    EmptyOrInhabited(ps);
    var x :| x in ps;
    var rest := ps - {x};
    if rest == {} {
      forall q | q in ps
        ensures q <= x
      {
        assert q !in rest;
      }
    } else {
      MaxExists(rest);
      var m :| m in rest && forall q :: q in rest ==> q <= m;
      var top := if m < x then x else m;
      forall q | q in ps
        ensures q <= top
      {
        if q != x {
          assert q in rest;
        }
      }
    }
  }

  /** `sorted(keys, reverse=True)` on a set of distinct priorities (line 291). */
  method SortDescending(ps: set<int>) returns (order: seq<int>)
    ensures forall j, k :: 0 <= j < k < |order| ==> order[j] > order[k]
    ensures forall p :: p in order <==> p in ps
  {
    order := [];
    var rest := ps;
    while rest != {}
      invariant rest <= ps
      invariant forall p :: p in ps <==> p in order || p in rest
      invariant forall j, k :: 0 <= j < k < |order| ==> order[j] > order[k]
      invariant forall j, p :: 0 <= j < |order| && p in rest ==> order[j] > p
      decreases rest
    {
      MaxExists(rest);
      var m :| m in rest && forall q :: q in rest ==> q <= m;
      order := order + [m];
      rest := rest - {m};
    }
  }

  lemma SpecsLookup(rules: seq<Rule>, specs: Specs, anySpecs: AnySpecs, s: string, p: int)
    requires SpecsOf(rules, |rules|, specs) && AnySpecsOf(rules, |rules|, anySpecs) && s in specs
    ensures Lookup(specs[s], p) + Lookup(anySpecs, p) == Members(rules, s, p)
    ensures p in specs[s] || p in anySpecs <==> p in Priorities(rules, s)
  {
    ExplicitPrioritiesIff(rules, |rules|, s, p);
    WildcardPrioritiesIff(rules, |rules|, p);
  }

  /** Lines 290-292: with `order` listing the merged priorities highest first, one bucket per priority, descending, each holding that priority's merged list. */
  function BucketsOf(merged: map<int, seq<nat>>, order: seq<int>): (bs: seq<Bucket>)
    requires forall j, k :: 0 <= j < k < |order| ==> order[j] > order[k]
    requires forall p :: p in order <==> p in merged
    ensures Descending(bs)
    ensures PrioritiesOf(bs) == merged.Keys
    ensures forall k :: 0 <= k < |bs| ==> bs[k].priority in merged && bs[k].ids == merged[bs[k].priority]
  {
    assert forall k :: 0 <= k < |order| ==> order[k] in order;
    var bs := seq(|order|, k requires 0 <= k < |order| => Bucket(order[k], merged[order[k]]));
    assert PrioritiesOf(bs) == merged.Keys by {
      forall p | p in merged
        ensures p in PrioritiesOf(bs)
      {
        var k :| 0 <= k < |order| && order[k] == p;
        assert bs[k].priority == p;
      }
    }
    bs
  }

  /** Merged lists for exactly the state's priorities, listed in descending order, compile the state. */
  lemma BucketsCompiled(rules: seq<Rule>, name: string, merged: map<int, seq<nat>>, order: seq<int>)
    requires forall p :: p in merged ==> merged[p] == Members(rules, name, p)
    requires forall p :: p in merged <==> p in Priorities(rules, name)
    requires forall j, k :: 0 <= j < k < |order| ==> order[j] > order[k]
    requires forall p :: p in order <==> p in merged
    ensures StateCompiled(rules, name, BucketsOf(merged, order))
  {
    var buckets := BucketsOf(merged, order);
    assert merged.Keys == Priorities(rules, name) by {
      forall p | p in Priorities(rules, name)
        ensures p in merged.Keys
      {
        assert p in merged;
      }
    }
  }

  /** One state's buckets: its explicit lists merged with the every-state lists, by descending priority (lines 280-292). */
  method CompileState(rules: seq<Rule>, specs: Specs, anySpecs: AnySpecs, name: string) returns (buckets: seq<Bucket>)
    requires SpecsOf(rules, |rules|, specs) && AnySpecsOf(rules, |rules|, anySpecs) && name in specs
    ensures StateCompiled(rules, name, buckets)
  {
    var merged := MergeWildcards(specs[name], anySpecs);
    forall p
      ensures p in merged ==> merged[p] == Members(rules, name, p)
      ensures p in merged <==> p in Priorities(rules, name)
    {
      SpecsLookup(rules, specs, anySpecs, name, p);
    }
    var order := SortDescending(merged.Keys);
    BucketsCompiled(rules, name, merged, order);
    buckets := BucketsOf(merged, order);
  }

  /**
   * `RegexTokenizer.__init__`: the per-state tables, DEFAULT always among them, each a
   * list of priority buckets in descending order (lines 279-292).
   */
  method Compile(rules: seq<Rule>) returns (t: Table)
    ensures Default in t
    ensures IsCompiled(rules, t)
  {
    var specs, anySpecs := CollectSpecs(rules);
    t := map[];
    var pending := specs.Keys;
    while pending != {}
      invariant pending <= specs.Keys
      invariant t.Keys == specs.Keys - pending
      invariant forall s :: s in t ==> StateCompiled(rules, s, t[s])
      decreases pending
    {
      var name :| name in pending;
      var buckets := CompileState(rules, specs, anySpecs, name);
      t := t[name := buckets];
      pending := pending - {name};
    }
    assert t.Keys == specs.Keys == KnownStates(rules);
  }
}
