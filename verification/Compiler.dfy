/** The policy compiler (internal/policy/compiler/compiler.go): validate, reject conflicts, put in canonical order. */
module Compiler {
  import opened Names
  import opened Sequences

  datatype Policy = Policy(id: Name, priority: int, kind: Name, value: Name, resource: Name, action: Name, effect: Name)

  datatype Rule = Rule(priority: int, kind: Name, value: Name, resource: Name, action: Name, effect: Name)

  datatype CompileError = CompileError(policy: Name, field: Field)

  datatype Field = EffectField | KindField | ValueField | ResourceOrAction | ResourceField

  /** A bundle carries the hash of its rules; H is the type of hashes. */
  datatype Compiled<H> = Bundle(tenant: Name, version: nat, contentHash: H, rules: seq<Rule>)
                       | Rejected(error: CompileError)

  /** Registered applications, or no registry to check against. */
  datatype Apps = NoRegistry | Known(apps: set<Name>)

  const ALLOW: Name := "allow"
  const DENY: Name := "deny"
  const INSPECT: Name := "inspect"

  predicate ValidEffect(s: Name) {
    s == ALLOW || s == DENY || s == INSPECT
  }

  predicate ValidKind(s: Name) {
    s == "user" || s == "group" || s == "posture" || s == "risk_gte"
  }

  predicate ValidRiskLevel(s: Name) {
    s == "low" || s == "medium" || s == "high" || s == "critical"
  }

  predicate Registered(apps: Apps, resource: Name) {
    apps.Known? ==> resource in apps.apps
  }

  function RuleOf(p: Policy): Rule {
    Rule(p.priority, p.kind, p.value, p.resource, p.action, p.effect)
  }

  predicate ValidFields(p: Policy, apps: Apps) {
    && ValidEffect(p.effect) && ValidKind(p.kind)
    && (p.kind == "risk_gte" ==> ValidRiskLevel(p.value))
    && p.resource != "" && p.action != "" && Registered(apps, p.resource)
  }

  /** Same subject, resource and action, opposite effect. */
  predicate Conflict(a: Rule, b: Rule) {
    a.kind == b.kind && a.value == b.value && a.resource == b.resource && a.action == b.action && a.effect != b.effect
  }

  // ---- The canonical order ----

  predicate RuleLess(a: Rule, b: Rule) {
    if a.priority != b.priority then a.priority < b.priority
    else if a.resource != b.resource then Less(a.resource, b.resource)
    else if a.kind != b.kind then Less(a.kind, b.kind)
    else if a.value != b.value then Less(a.value, b.value)
    else if a.action != b.action then Less(a.action, b.action)
    else Less(a.effect, b.effect)
  }

  /** Irreflexivity and transitivity of one field's order, for the three given values. */
  lemma NameOrder(a: Name, b: Name, c: Name)
    ensures !Less(a, a)
    ensures Less(a, b) && Less(b, c) ==> Less(a, c)
    ensures Less(a, b) || a == b || Less(b, a)
    ensures Less(a, b) ==> a != b && !Less(b, a)
  {
    Irreflexive(a);
    Total(a, b);
    if Less(a, b) && Less(b, c) {
      Transitive(a, b, c);
    }
    if Less(a, b) && Less(b, a) {
      Transitive(a, b, a);
    }
  }

  lemma RuleLessTransitive(a: Rule, b: Rule, c: Rule)
    requires RuleLess(a, b) && RuleLess(b, c)
    ensures RuleLess(a, c)
  {
    hide Less;
    NameOrder(a.resource, b.resource, c.resource);
    NameOrder(a.kind, b.kind, c.kind);
    NameOrder(a.value, b.value, c.value);
    NameOrder(a.action, b.action, c.action);
    NameOrder(a.effect, b.effect, c.effect);
  }

  lemma RuleLessTotal(a: Rule, b: Rule)
    ensures RuleLess(a, b) || a == b || RuleLess(b, a)
    ensures !(RuleLess(a, b) && RuleLess(b, a)) && !RuleLess(a, a)
  {
    hide Less;
    NameOrder(a.resource, b.resource, a.resource);
    NameOrder(a.kind, b.kind, a.kind);
    NameOrder(a.value, b.value, a.value);
    NameOrder(a.action, b.action, a.action);
    NameOrder(a.effect, b.effect, a.effect);
  }

  /** a comes first in one field by the first difference of its characters, written out. */
  ghost predicate FieldFirst(a: Name, b: Name) {
    exists n: nat :: LessAt(a, b, n)
  }

  /** Ascending priority, and within one priority ascending resource, kind, value, action and effect. */
  ghost predicate Ascends(a: Rule, b: Rule) {
    || a == b
    || a.priority < b.priority
    || (a.priority == b.priority &&
        (|| FieldFirst(a.resource, b.resource)
         || (a.resource == b.resource &&
             (|| FieldFirst(a.kind, b.kind)
              || (a.kind == b.kind &&
                  (|| FieldFirst(a.value, b.value)
                   || (a.value == b.value &&
                       (|| FieldFirst(a.action, b.action)
                        || (a.action == b.action && FieldFirst(a.effect, b.effect))))))))))
  }

  lemma FieldFirstIsLess(a: Name, b: Name)
    ensures FieldFirst(a, b) <==> Less(a, b)
    ensures Less(a, b) ==> a != b
  {
    LessMeaning(a, b);
    Irreflexive(a);
  }

  lemma AscendsExactly(a: Rule, b: Rule)
    ensures Ascends(a, b) <==> !RuleLess(b, a)
  {
    RuleLessTotal(a, b);
    hide Less, FieldFirst;
    FieldFirstIsLess(a.resource, b.resource);
    FieldFirstIsLess(a.kind, b.kind);
    FieldFirstIsLess(a.value, b.value);
    FieldFirstIsLess(a.action, b.action);
    FieldFirstIsLess(a.effect, b.effect);
  }

  // ---- Sorting ----

  ghost predicate Ordered(s: seq<Rule>) {
    forall i, j :: 0 <= i < j < |s| ==> !RuleLess(s[j], s[i])
  }

  /** The rules of a bundle ascend. */
  ghost predicate Ascending(s: seq<Rule>) {
    forall i, j :: 0 <= i < j < |s| ==> Ascends(s[i], s[j])
  }

  lemma OrderedAscends(s: seq<Rule>)
    requires Ordered(s)
    ensures Ascending(s)
  {
    hide RuleLess, Ascends;
    forall i, j | 0 <= i < j < |s| ensures Ascends(s[i], s[j]) {
      AscendsExactly(s[i], s[j]);
    }
  }

  /** r put behind everything it is not less than, in an ordered sequence. */
  function Insert(s: seq<Rule>, r: Rule): (t: seq<Rule>)
    ensures |t| == |s| + 1
  {
    if s == [] || !RuleLess(r, s[|s| - 1]) then s + [r] else Insert(s[..|s| - 1], r) + [s[|s| - 1]]
  }

  function Sort(s: seq<Rule>): (t: seq<Rule>)
    ensures |t| == |s|
  {
    if s == [] then [] else Insert(Sort(s[..|s| - 1]), s[|s| - 1])
  }

  lemma {:induction false} InsertKeeps(s: seq<Rule>, r: Rule)
    ensures multiset(Insert(s, r)) == multiset(s) + multiset{r}
    ensures Ordered(s) ==> Ordered(Insert(s, r))
  {
    hide RuleLess;
    if s == [] || !RuleLess(r, s[|s| - 1]) {
      if Ordered(s) {
        forall i | 0 <= i < |s| ensures !RuleLess(r, s[i]) {
          RuleLessTotal(s[i], s[|s| - 1]);
          if RuleLess(r, s[i]) {
            NotAbove(r, s[i], s[|s| - 1]);
          }
        }
      }
    } else {
      var init, last := s[..|s| - 1], s[|s| - 1];
      InsertKeeps(init, r);
      assert s == init + [last];
      var t := Insert(init, r);
      if Ordered(s) {
        forall i | 0 <= i < |t| ensures !RuleLess(last, t[i]) {
          assert t[i] in multiset(t);
          if t[i] == r {
            RuleLessTotal(last, r);
          } else {
            assert t[i] in init;
          }
        }
      }
    }
  }

  lemma NotAbove(r: Rule, a: Rule, b: Rule)
    requires RuleLess(r, a) && !RuleLess(b, a)
    ensures RuleLess(r, b)
  {
    hide RuleLess;
    RuleLessTotal(a, b);
    if a != b {
      RuleLessTransitive(r, a, b);
    }
  }

  lemma {:induction false} SortKeeps(s: seq<Rule>)
    ensures multiset(Sort(s)) == multiset(s) && Ordered(Sort(s))
  {
    if s != [] {
      hide RuleLess, Ordered, Insert;
      SortKeeps(s[..|s| - 1]);
      InsertKeeps(Sort(s[..|s| - 1]), s[|s| - 1]);
      assert s == s[..|s| - 1] + [s[|s| - 1]];
    } else {
      assert Sort(s) == s;
    }
  }

  lemma SameFirst(a: seq<Rule>, b: seq<Rule>)
    requires Ordered(a) && Ordered(b) && multiset(a) == multiset(b) && a != [] && b != []
    ensures a[0] == b[0]
  {
    hide RuleLess;
    assert a[0] in multiset(b) && b[0] in multiset(a);
    var k :| 0 <= k < |b| && b[k] == a[0];
    var m :| 0 <= m < |a| && a[m] == b[0];
    RuleLessTotal(a[0], b[0]);
  }

  /** There is only one way to order a list of rules: the sorting algorithm does not matter, nor does its stability. */
  lemma {:induction false} OrderUnique(a: seq<Rule>, b: seq<Rule>)
    requires Ordered(a) && Ordered(b) && multiset(a) == multiset(b)
    ensures a == b
    decreases |a|
  {
    hide RuleLess, Ordered;
    if a == [] {
      assert |multiset(b)| == 0;
    } else {
      assert |multiset(a)| == |multiset(b)|;
      SameFirst(a, b);
      FirstApart(a);
      FirstApart(b);
      OrderedRest(a);
      OrderedRest(b);
      OrderUnique(a[1..], b[1..]);
      assert a == [a[0]] + a[1..] && b == [b[0]] + b[1..];
    }
  }

  lemma OrderedRest(rules: seq<Rule>)
    requires Ordered(rules) && rules != []
    ensures Ordered(rules[1..])
  {
    hide RuleLess;
  }

  /** rules[..i] is in order; rules[i] moves down to its place. */
  method MoveDown(rules: array<Rule>, i: nat)
    requires i < rules.Length
    modifies rules
    ensures rules[..i + 1] == Insert(old(rules[..i]), old(rules[i]))
    ensures rules[i + 1..] == old(rules[i + 1..])
  {
    hide RuleLess, Insert;
    var r := rules[i];
    ghost var done := rules[..i];
    assert done[..i] == done && Insert(done, r) == Insert(done, r) + [];
    var j := i;
    while j > 0 && RuleLess(r, rules[j - 1])
      invariant 0 <= j <= i
      invariant rules[..j] == done[..j]
      invariant rules[j + 1..i + 1] == done[j..]
      invariant rules[i + 1..] == old(rules[i + 1..])
      invariant Insert(done, r) == Insert(done[..j], r) + done[j..]
    {
      InsertDown(done, r, j);
      rules[j] := rules[j - 1];
      j := j - 1;
    }
    InsertStop(done[..j], r);
    rules[j] := r;
    assert rules[..i + 1] == done[..j] + [r] + done[j..];
  }

  lemma InsertStop(done: seq<Rule>, r: Rule)
    requires done != [] ==> !RuleLess(r, done[|done| - 1])
    ensures Insert(done, r) == done + [r]
  {
    hide RuleLess;
  }

  lemma InsertDown(done: seq<Rule>, r: Rule, j: nat)
    requires 0 < j <= |done| && RuleLess(r, done[j - 1])
    ensures Insert(done[..j], r) + done[j..] == Insert(done[..j - 1], r) + done[j - 1..]
  {
    hide RuleLess;
    assert done[..j][..j - 1] == done[..j - 1];
    assert [done[j - 1]] + done[j..] == done[j - 1..];
  }

  /** sortRules, in place. */
  method SortRules(rules: array<Rule>)
    modifies rules
    ensures rules[..] == Sort(old(rules[..]))
    ensures Ascending(rules[..]) && multiset(rules[..]) == multiset(old(rules[..]))
  {
    hide RuleLess, Insert, Ordered, Ascending;
    ghost var was := rules[..];
    var i := 0;
    while i < rules.Length
      invariant 0 <= i <= rules.Length
      invariant rules[..i] == Sort(was[..i]) && rules[i..] == was[i..]
    {
      assert rules[i..][0] == was[i..][0];
      MoveDown(rules, i);
      assert was[..i + 1][..i] == was[..i];
      i := i + 1;
    }
    assert was[..i] == was && rules[..i] == rules[..];
    SortKeeps(was);
    OrderedAscends(rules[..]);
  }

  // ---- Compilation ----

  function FieldError(p: Policy, apps: Apps): Field
    requires !ValidFields(p, apps)
  {
    if !ValidEffect(p.effect) then EffectField
    else if !ValidKind(p.kind) then KindField
    else if p.kind == "risk_gte" && !ValidRiskLevel(p.value) then ValueField
    else if p.resource == "" || p.action == "" then ResourceOrAction
    else ResourceField
  }

  function Rules(ps: seq<Policy>): (rs: seq<Rule>)
    ensures |rs| == |ps|
  {
    seq(|ps|, i requires 0 <= i < |ps| => RuleOf(ps[i]))
  }

  ghost predicate AllValid(ps: seq<Policy>, apps: Apps) {
    forall i :: 0 <= i < |ps| ==> ValidFields(ps[i], apps)
  }

  /** No two of them conflict. */
  ghost predicate Consistent(rs: seq<Rule>) {
    forall i, j :: 0 <= i < |rs| && 0 <= j < |rs| ==> !Conflict(rs[i], rs[j])
  }

  datatype MatchKey = MatchKey(kind: Name, value: Name, resource: Name, action: Name)

  function KeyOf(r: Rule): MatchKey {
    MatchKey(r.kind, r.value, r.resource, r.action)
  }

  /**
   * Compile: rejects the first policy with a bad field; then the first one that conflicts with an earlier one;
   * otherwise yields all rules in canonical order.
   */
  method Compile<H>(tenant: Name, ps: seq<Policy>, apps: Apps, hash: seq<Rule> -> H) returns (c: Compiled<H>)
    ensures !AllValid(ps, apps) ==> exists i ::
              0 <= i < |ps| && !ValidFields(ps[i], apps) && AllValid(ps[..i], apps)
              && c == Rejected(CompileError(ps[i].id, FieldError(ps[i], apps)))
    ensures AllValid(ps, apps) && !Consistent(Rules(ps)) ==> exists i ::
              0 <= i < |ps| && !Consistent(Rules(ps[..i + 1])) && Consistent(Rules(ps[..i]))
              && c == Rejected(CompileError(ps[i].id, EffectField))
    ensures AllValid(ps, apps) && Consistent(Rules(ps)) ==>
              c == Bundle(tenant, 0, hash(Sort(Rules(ps))), Sort(Rules(ps)))
    ensures c.Bundle? ==> Ascending(c.rules) && multiset(c.rules) == multiset(Rules(ps))
  {
    hide ValidFields, Sort, Ordered, Ascending;
    var rules: seq<Rule> := [];
    var i := 0;
    while i < |ps|
      invariant 0 <= i <= |ps| && rules == Rules(ps[..i])
      invariant forall k :: 0 <= k < i ==> ValidFields(ps[k], apps)
    {
      var p := ps[i];
      if !IsValid(p, apps) {
        assert AllValid(ps[..i], apps);
        return Rejected(CompileError(p.id, FieldError(p, apps)));
      }
      rules := rules + [RuleOf(p)];
      i := i + 1;
      assert rules == Rules(ps[..i]);
    }
    assert ps[..i] == ps;
    var conflict := FirstConflict(rules);
    if conflict < |rules| {
      assert rules[..conflict] == Rules(ps[..conflict]) && rules[..conflict + 1] == Rules(ps[..conflict + 1]);
      return Rejected(CompileError(ps[conflict].id, EffectField));
    }
    assert rules[..conflict] == rules;
    var a := new Rule[|rules|](k requires 0 <= k < |rules| => rules[k]);
    assert a[..] == rules;
    SortRules(a);
    c := Bundle(tenant, 0, hash(a[..]), a[..]);
  }

  predicate IsValid(p: Policy, apps: Apps)
    ensures IsValid(p, apps) == ValidFields(p, apps)
  {
    ValidFields(p, apps)
  }

  /** The loop over `seen`: the first rule that conflicts with an earlier one. */
  method FirstConflict(rules: seq<Rule>) returns (n: nat)
    ensures n <= |rules| && Consistent(rules[..n])
    ensures n < |rules| ==> !Consistent(rules[..n + 1])
  {
    var seen: map<MatchKey, Name> := map[];
    n := 0;
    while n < |rules|
      invariant n <= |rules| && Consistent(rules[..n])
      invariant forall k :: 0 <= k < n ==> KeyOf(rules[k]) in seen && seen[KeyOf(rules[k])] == rules[k].effect
      invariant forall key <- seen :: exists k :: 0 <= k < n && KeyOf(rules[k]) == key
    {
      var key := KeyOf(rules[n]);
      if key in seen && seen[key] != rules[n].effect {
        ghost var k :| 0 <= k < n && KeyOf(rules[k]) == key;
        assert Conflict(rules[..n + 1][k], rules[..n + 1][n]);
        return;
      }
      seen := seen[key := rules[n].effect];
      n := n + 1;
    }
  }

  // ---- Authoring order ----

  lemma RulesWithout(ps: seq<Policy>, k: nat)
    requires k < |ps|
    ensures multiset(Rules(ps)) == multiset(Rules(Without(ps, k))) + multiset{RuleOf(ps[k])}
  {
    WithoutMultiset(Rules(ps), k);
    assert Without(Rules(ps), k) == Rules(Without(ps, k));
  }

  lemma PlaceOf<T>(x: T, t: seq<T>) returns (k: nat)
    requires x in multiset(t)
    ensures k < |t| && t[k] == x
  {
    k :| 0 <= k < |t| && t[k] == x;
  }

  /** Where the first element of one list is in a permutation of it. */
  lemma FirstOf<T>(s: seq<T>, t: seq<T>) returns (k: nat)
    requires multiset(s) == multiset(t) && s != []
    ensures k < |t| && t[k] == s[0] && multiset(s[1..]) == multiset(Without(t, k))
  {
    assert s[0] in multiset(s);
    k := PlaceOf(s[0], t);
    WithoutMultiset(t, k);
    FirstApart(s);
  }

  lemma SameWhenEmpty<T>(s: seq<T>, t: seq<T>)
    requires multiset(s) == multiset(t) && s == []
    ensures t == []
  {
    assert |multiset(t)| == 0;
  }

  lemma {:induction false} RulesPermuted(ps: seq<Policy>, qs: seq<Policy>)
    requires multiset(ps) == multiset(qs)
    ensures multiset(Rules(ps)) == multiset(Rules(qs))
    decreases |ps|
  {
    hide Rules, RuleOf;
    if ps == [] {
      SameWhenEmpty(ps, qs);
    } else {
      var k := FirstOf(ps, qs);
      RulesWithout(ps, 0);
      RulesWithout(qs, k);
      assert Without(ps, 0) == ps[1..];
      RulesPermuted(ps[1..], Without(qs, k));
    }
  }

  /** Whatever order the policies are written in, they compile or fail alike and give the same rule list. */
  lemma OrderIndependent(ps: seq<Policy>, qs: seq<Policy>, apps: Apps)
    requires multiset(ps) == multiset(qs)
    ensures AllValid(ps, apps) <==> AllValid(qs, apps)
    ensures Consistent(Rules(ps)) <==> Consistent(Rules(qs))
    ensures Sort(Rules(ps)) == Sort(Rules(qs))
  {
    hide ValidFields, Conflict, Sort;
    forall i | 0 <= i < |ps| ensures ps[i] in qs {
      assert ps[i] in multiset(qs);
    }
    forall i | 0 <= i < |qs| ensures qs[i] in ps {
      assert qs[i] in multiset(ps);
    }
    RulesPermuted(ps, qs);
    if Consistent(Rules(ps)) {
      SameConsistency(Rules(ps), Rules(qs));
    }
    if Consistent(Rules(qs)) {
      SameConsistency(Rules(qs), Rules(ps));
    }
    SortKeeps(Rules(ps));
    SortKeeps(Rules(qs));
    OrderUnique(Sort(Rules(ps)), Sort(Rules(qs)));
  }

  lemma SameConsistency(a: seq<Rule>, b: seq<Rule>)
    requires multiset(a) == multiset(b) && Consistent(a)
    ensures Consistent(b)
  {
    hide Conflict;
    forall i, j | 0 <= i < |b| && 0 <= j < |b| ensures !Conflict(b[i], b[j]) {
      assert b[i] in multiset(a) && b[j] in multiset(a);
    }
  }

  // ---- What a policy must look like ----

  /** The values each field may take. */
  lemma ValidMeaning(p: Policy, apps: Apps)
    ensures ValidFields(p, apps) <==>
              && p.effect in {"allow", "deny", "inspect"} && p.kind in {"user", "group", "posture", "risk_gte"}
              && (p.kind == "risk_gte" ==> p.value in {"low", "medium", "high", "critical"})
              && p.resource != "" && p.action != "" && (apps.Known? ==> p.resource in apps.apps)
  {
  }

  /** The field a rejection names is the first one at fault, in this order. */
  lemma FieldMeaning(p: Policy, apps: Apps)
    requires !ValidFields(p, apps)
    ensures var field := FieldError(p, apps);
      && (field == EffectField <==> p.effect !in {"allow", "deny", "inspect"})
      && (field == KindField ==> p.kind !in {"user", "group", "posture", "risk_gte"})
      && (field == ValueField ==> p.kind == "risk_gte" && p.value !in {"low", "medium", "high", "critical"})
      && (field == ResourceOrAction ==> p.resource == "" || p.action == "")
      && (field == ResourceField ==> p.resource != "" && apps.Known? && p.resource !in apps.apps)
      && (field in {ValueField, ResourceOrAction, ResourceField} ==> p.kind in {"user", "group", "posture", "risk_gte"})
      && (field in {ResourceOrAction, ResourceField} && p.kind == "risk_gte" ==>
            p.value in {"low", "medium", "high", "critical"})
      && (field == ResourceField ==> p.action != "")
  {
  }

  /** Two rules conflict when only priority and effect tell them apart, and the effect does. */
  lemma ConflictMeaning(a: Rule, b: Rule)
    ensures Conflict(a, b) <==> a.effect != b.effect && b == a.(priority := b.priority, effect := b.effect)
  {
  }
}
