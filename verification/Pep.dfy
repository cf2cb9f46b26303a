/** The policy enforcement point (internal/pop/pep/pep.go) on compiled rules. */
module Pep {
  import opened Bytes
  import opened Names
  import opened Compiler

  datatype Claims = Claims(jti: Name, tenant: Name, subject: Name, groups: seq<Name>, posture: Name, riskLevel: Name,
                           expireAt: int)

  /** riskRank: a level that is not in the table ranks lowest. */
  function RiskRank(level: Name): nat {
    if level == "medium" then 1 else if level == "high" then 2 else if level == "critical" then 3 else 0
  }

  predicate SubjectMatch(r: Rule, c: Claims) {
    if r.kind == "user" then c.subject == r.value
    else if r.kind == "group" then r.value in c.groups
    else if r.kind == "posture" then c.posture == r.value
    else if r.kind == "risk_gte" then RiskRank(c.riskLevel) >= RiskRank(r.value)
    else false
  }

  predicate Matches(r: Rule, c: Claims, resource: Name, action: Name) {
    && r.resource == resource
    && (r.action == "" || action == "" || r.action == action)
    && SubjectMatch(r, c)
  }

  /** Effect of the first rule that matches. */
  function Scan(rules: seq<Rule>, c: Claims, resource: Name, action: Name): Name {
    if rules == [] then DENY
    else if Matches(rules[0], c, resource, action) then rules[0].effect
    else Scan(rules[1..], c, resource, action)
  }

  /** Decide: a tenant without a bundle is denied. */
  function Decide(bundle: Option<seq<Rule>>, c: Claims, resource: Name, action: Name): Name {
    if bundle.None? then DENY else Scan(bundle.value, c, resource, action)
  }

  // ---- Which requests a rule catches ----

  /** The subject of a rule, kind by kind; anything else, as an unknown kind, catches nobody. */
  lemma SubjectMeaning(r: Rule, c: Claims)
    ensures r.kind == "user" ==> (SubjectMatch(r, c) <==> r.value == c.subject)
    ensures r.kind == "group" ==> (SubjectMatch(r, c) <==> exists i :: 0 <= i < |c.groups| && c.groups[i] == r.value)
    ensures r.kind == "posture" ==> (SubjectMatch(r, c) <==> r.value == c.posture)
    ensures r.kind !in {"user", "group", "posture", "risk_gte"} ==> !SubjectMatch(r, c)
  {
  }

  /** A risk_gte rule catches its own level and those above it; unknown levels count as the lowest. */
  lemma RiskMeaning(r: Rule, c: Claims)
    requires r.kind == "risk_gte"
    ensures r.value == "critical" ==> (SubjectMatch(r, c) <==> c.riskLevel == "critical")
    ensures r.value == "high" ==> (SubjectMatch(r, c) <==> c.riskLevel in {"high", "critical"})
    ensures r.value == "medium" ==> (SubjectMatch(r, c) <==> c.riskLevel in {"medium", "high", "critical"})
    ensures r.value !in {"medium", "high", "critical"} ==> SubjectMatch(r, c)
  {
  }

  /** A rule is about its own resource, and about its own action unless either side leaves that open. */
  lemma MatchMeaning(r: Rule, c: Claims, resource: Name, action: Name)
    ensures r.resource != resource ==> !Matches(r, c, resource, action)
    ensures r.action != "" && action != "" && r.action != action ==> !Matches(r, c, resource, action)
    ensures r.resource == resource && r.action in {"", action} ==>
              (Matches(r, c, resource, action) <==> SubjectMatch(r, c))
    ensures r.resource == resource && action == "" ==> (Matches(r, c, resource, action) <==> SubjectMatch(r, c))
  {
    hide SubjectMatch;
  }

  /** The first rule of the list that matches. */
  ghost predicate FirstMatch(rules: seq<Rule>, i: nat, c: Claims, resource: Name, action: Name) {
    && i < |rules| && Matches(rules[i], c, resource, action)
    && forall j :: 0 <= j < i ==> !Matches(rules[j], c, resource, action)
  }

  lemma {:induction false} ScanIsFirstMatch(rules: seq<Rule>, c: Claims, resource: Name, action: Name)
    ensures forall i: nat :: FirstMatch(rules, i, c, resource, action) ==>
              Scan(rules, c, resource, action) == rules[i].effect
    ensures Scan(rules, c, resource, action) == "deny" || exists i: nat :: FirstMatch(rules, i, c, resource, action)
  {
    hide Matches;
    if rules != [] {
      ScanIsFirstMatch(rules[1..], c, resource, action);
      if Matches(rules[0], c, resource, action) {
        assert FirstMatch(rules, 0, c, resource, action);
      } else {
        forall i: nat | FirstMatch(rules, i, c, resource, action)
          ensures FirstMatch(rules[1..], i - 1, c, resource, action)
        {
        }
        if i: nat :| FirstMatch(rules[1..], i, c, resource, action) {
          assert FirstMatch(rules, i + 1, c, resource, action);
        }
      }
    }
  }

  /** A request is let through exactly when the tenant has a bundle whose first matching rule is not a deny. */
  lemma DecideLetsThrough(bundle: Option<seq<Rule>>, c: Claims, resource: Name, action: Name)
    ensures Decide(bundle, c, resource, action) != "deny" <==>
              bundle.Some? && exists i: nat ::
                FirstMatch(bundle.value, i, c, resource, action) && bundle.value[i].effect != "deny"
  {
    hide Scan, FirstMatch;
    if bundle.Some? {
      ScanIsFirstMatch(bundle.value, c, resource, action);
    }
  }

  lemma {:induction false} ScanNone(rules: seq<Rule>, c: Claims, resource: Name, action: Name)
    requires forall i :: 0 <= i < |rules| ==> !Matches(rules[i], c, resource, action)
    ensures Scan(rules, c, resource, action) == DENY
  {
    hide Matches;
    if rules != [] {
      ScanNone(rules[1..], c, resource, action);
    }
  }

  /** In an ordered list the first match is a least one, and least matches have the same effect. */
  lemma {:induction false} ScanLeast(rules: seq<Rule>, c: Claims, resource: Name, action: Name, r: Rule)
    requires Ordered(rules) && r in rules && Matches(r, c, resource, action)
    requires forall i :: 0 <= i < |rules| && Matches(rules[i], c, resource, action) ==> !RuleLess(rules[i], r)
    ensures Scan(rules, c, resource, action) == r.effect
  {
    hide Matches, RuleLess;
    RuleLessTotal(rules[0], r);
    if Matches(rules[0], c, resource, action) {
      var k :| 0 <= k < |rules| && rules[k] == r;
    } else {
      ScanLeast(rules[1..], c, resource, action, r);
    }
  }

  /**
   * Compiled and then decided: the effect of the matching policy with the lowest priority number, the first one field
   * by field among equals, wherever it was written; and deny when none matches.
   */
  lemma DecideIsLeastMatch(ps: seq<Policy>, c: Claims, resource: Name, action: Name)
    ensures (forall i :: 0 <= i < |ps| ==> !Matches(RuleOf(ps[i]), c, resource, action)) ==>
              Decide(Some(Sort(Rules(ps))), c, resource, action) == DENY
    ensures forall i :: 0 <= i < |ps| && LeastMatch(ps, i, c, resource, action) ==>
              Decide(Some(Sort(Rules(ps))), c, resource, action) == ps[i].effect
  {
    hide Matches, RuleLess, Ascends, Sort, Ordered;
    var rules := Sort(Rules(ps));
    SortKeeps(Rules(ps));
    if forall i :: 0 <= i < |ps| ==> !Matches(RuleOf(ps[i]), c, resource, action) {
      forall k | 0 <= k < |rules| ensures !Matches(rules[k], c, resource, action) {
        var i := FromPolicies(ps, k);
      }
      ScanNone(rules, c, resource, action);
    }
    forall i | 0 <= i < |ps| && LeastMatch(ps, i, c, resource, action)
      ensures Scan(rules, c, resource, action) == ps[i].effect
    {
      assert Rules(ps)[i] in multiset(rules);
      forall k | 0 <= k < |rules| && Matches(rules[k], c, resource, action) ensures !RuleLess(rules[k], RuleOf(ps[i])) {
        var j := FromPolicies(ps, k);
        AscendsExactly(RuleOf(ps[i]), rules[k]);
      }
      ScanLeast(rules, c, resource, action, RuleOf(ps[i]));
    }
  }

  /** ps[i] matches; every match has a higher priority number or, with the same, is not before it field by field. */
  ghost predicate LeastMatch(ps: seq<Policy>, i: nat, c: Claims, resource: Name, action: Name)
    requires i < |ps|
  {
    && Matches(RuleOf(ps[i]), c, resource, action)
    && forall j :: 0 <= j < |ps| && Matches(RuleOf(ps[j]), c, resource, action) ==>
         ps[i].priority <= ps[j].priority && Ascends(RuleOf(ps[i]), RuleOf(ps[j]))
  }

  lemma PriorityFirst(a: Rule, b: Rule)
    requires Ascends(a, b)
    ensures a.priority <= b.priority
  {
    hide FieldFirst;
  }

  lemma FromPolicies(ps: seq<Policy>, k: nat) returns (i: nat)
    requires k < |Sort(Rules(ps))|
    ensures i < |ps| && RuleOf(ps[i]) == Sort(Rules(ps))[k]
  {
    hide Sort;
    SortKeeps(Rules(ps));
    assert Sort(Rules(ps))[k] in multiset(Rules(ps));
    i :| 0 <= i < |Rules(ps)| && Rules(ps)[i] == Sort(Rules(ps))[k];
  }

  /** Some policy is a least match as soon as any matches, so the two cases above cover every request. */
  lemma {:induction false} SomeLeastMatch(ps: seq<Policy>, c: Claims, resource: Name, action: Name)
    requires exists i :: 0 <= i < |ps| && Matches(RuleOf(ps[i]), c, resource, action)
    ensures exists i :: 0 <= i < |ps| && LeastMatch(ps, i, c, resource, action)
  {
    hide Matches, RuleLess, Ascends;
    var i :| 0 <= i < |ps| && Matches(RuleOf(ps[i]), c, resource, action);
    var best, k := i, 0;
    while k < |ps|
      invariant 0 <= k <= |ps| && 0 <= best < |ps| && Matches(RuleOf(ps[best]), c, resource, action)
      invariant forall j :: 0 <= j < k && Matches(RuleOf(ps[j]), c, resource, action) ==>
                  !RuleLess(RuleOf(ps[j]), RuleOf(ps[best]))
    {
      RuleLessTotal(RuleOf(ps[k]), RuleOf(ps[best]));
      if Matches(RuleOf(ps[k]), c, resource, action) && RuleLess(RuleOf(ps[k]), RuleOf(ps[best])) {
        forall j | 0 <= j < k && Matches(RuleOf(ps[j]), c, resource, action)
          ensures !RuleLess(RuleOf(ps[j]), RuleOf(ps[k]))
        {
          if RuleLess(RuleOf(ps[j]), RuleOf(ps[k])) {
            RuleLessTransitive(RuleOf(ps[j]), RuleOf(ps[k]), RuleOf(ps[best]));
          }
        }
        RuleLessTotal(RuleOf(ps[k]), RuleOf(ps[k]));
        best := k;
      }
      k := k + 1;
    }
    forall j | 0 <= j < |ps| && Matches(RuleOf(ps[j]), c, resource, action)
      ensures ps[best].priority <= ps[j].priority && Ascends(RuleOf(ps[best]), RuleOf(ps[j]))
    {
      AscendsExactly(RuleOf(ps[best]), RuleOf(ps[j]));
      PriorityFirst(RuleOf(ps[best]), RuleOf(ps[j]));
    }
    assert LeastMatch(ps, best, c, resource, action);
  }

  /** The same policies in another order decide every request alike. */
  lemma DecideOrderIndependent(ps: seq<Policy>, qs: seq<Policy>, c: Claims, resource: Name, action: Name)
    requires multiset(ps) == multiset(qs)
    ensures Decide(Some(Sort(Rules(ps))), c, resource, action) == Decide(Some(Sort(Rules(qs))), c, resource, action)
  {
    OrderIndependent(ps, qs, NoRegistry);
  }
}
