/**
 * The role hierarchy (core/internal/role/role.go, ts/linkself/src/role.ts): a depth-first
 * search with three colours builds, for every role, the set of roles it transitively includes.
 */
module RoleDag {
  import opened Common

  type Role = string

  /** Role name to the list of roles it includes. */
  type Defs = map<Role, seq<Role>>

  type Table = map<Role, set<Role>>

  datatype Problem = Undefined(role: Role, included: Role) | Cyclic(role: Role)

  // ---------------------------------------------------------------------------------------
  // Reachability
  // ---------------------------------------------------------------------------------------

  predicate Includes(defs: Defs, a: Role, b: Role) {
    a in defs && b in defs[a]
  }

  ghost predicate IsPath(defs: Defs, p: seq<Role>) {
    |p| >= 2 && forall i :: 0 <= i < |p| - 1 ==> Includes(defs, p[i], p[i + 1])
  }

  /** `b` is reached from `a` over one or more include edges. */
  ghost predicate Reaches(defs: Defs, a: Role, b: Role) {
    exists p :: IsPath(defs, p) && p[0] == a && p[|p| - 1] == b
  }

  ghost predicate Closed(defs: Defs) {
    forall a, b :: Includes(defs, a, b) ==> b in defs
  }

  ghost predicate Acyclic(defs: Defs) {
    forall a :: !Reaches(defs, a, a)
  }

  lemma EdgeReaches(defs: Defs, a: Role, b: Role)
    requires Includes(defs, a, b)
    ensures Reaches(defs, a, b)
  {
    assert IsPath(defs, [a, b]);
  }

  lemma ReachesTransitive(defs: Defs, a: Role, b: Role, c: Role)
    requires Reaches(defs, a, b) && Reaches(defs, b, c)
    ensures Reaches(defs, a, c)
  {
    var p :| IsPath(defs, p) && p[0] == a && p[|p| - 1] == b;
    var q :| IsPath(defs, q) && q[0] == b && q[|q| - 1] == c;
    assert IsPath(defs, p + q[1..]);
  }

  /** A path starts with an include edge. */
  lemma ReachesFirst(defs: Defs, a: Role, c: Role) returns (b: Role)
    requires Reaches(defs, a, c)
    ensures Includes(defs, a, b) && (b == c || Reaches(defs, b, c))
  {
    var p :| IsPath(defs, p) && p[0] == a && p[|p| - 1] == c;
    b := p[1];
    if |p| > 2 {
      assert IsPath(defs, p[1..]);
    }
  }

  ghost predicate ExactFor(defs: Defs, table: Table, a: Role) {
    a in table && forall b :: b in table[a] <==> Reaches(defs, a, b)
  }

  /** The table of a definition: every role with precisely the roles it reaches. */
  ghost predicate Exact(defs: Defs, table: Table) {
    table.Keys == defs.Keys && forall a :: a in defs ==> ExactFor(defs, table, a)
  }

  // ---------------------------------------------------------------------------------------
  // Construction
  // ---------------------------------------------------------------------------------------

  /** 1 while a role is being resolved, 2 once it is done; absent before. */
  type Marks = map<Role, int>

  predicate Marked(state: Marks, r: Role, mark: int) {
    r in state && state[r] == mark
  }

  /** Done roles have their exact row, lie on no cycle, and reach only done roles. */
  ghost predicate Sound(defs: Defs, table: Table, state: Marks) {
    && state.Keys <= defs.Keys
    && table.Keys <= defs.Keys
    && (forall r :: r in state ==> state[r] == 1 || state[r] == 2)
    && (forall r :: Marked(state, r, 2) ==> DoneRow(defs, table, state, r))
  }

  ghost predicate DoneRow(defs: Defs, table: Table, state: Marks, r: Role) {
    && ExactFor(defs, table, r)
    && !Reaches(defs, r, r)
    && forall b :: b in table[r] ==> Marked(state, b, 2)
  }

  /** `acc` gathers, for the includes seen so far, themselves and their rows. */
  ghost predicate Gathers(defs: Defs, table: Table, state: Marks, name: Role, seen: seq<Role>, acc: set<Role>) {
    && (forall inc :: inc in seen ==> Marked(state, inc, 2) && inc in table && inc in acc && table[inc] <= acc)
    && (forall b :: b in acc ==> Marked(state, b, 2) && Reaches(defs, name, b))
  }

  /** More roles are done; none has been forgotten, and the same ones are in progress. */
  ghost predicate Extends(s0: Marks, s1: Marks) {
    && s0.Keys <= s1.Keys
    && (forall r :: Marked(s0, r, 2) ==> Marked(s1, r, 2))
    && (forall r :: Marked(s1, r, 1) <==> Marked(s0, r, 1))
  }

  lemma ExtendsFurther(s0: Marks, s1: Marks, s2: Marks)
    requires Extends(s0, s1) && Extends(s1, s2)
    ensures Extends(s0, s2)
  {
  }

  /** A role marked in progress, then done: between the two only other roles were done. */
  lemma ExtendsByOne(s0: Marks, s1: Marks, name: Role)
    requires name !in s0 && Extends(s0[name := 1], s1)
    ensures Extends(s0, s1[name := 2])
  {
    assert Marked(s0[name := 1], name, 1);
    assert forall r, m :: r != name ==> (Marked(s0, r, m) <==> Marked(s0[name := 1], r, m));
  }

  lemma BeginKeepsSound(defs: Defs, table: Table, state: Marks, name: Role)
    requires Sound(defs, table, state) && name in defs && name !in state
    ensures Sound(defs, table, state[name := 1])
  {
    var state' := state[name := 1];
    forall r | Marked(state', r, 2)
      ensures DoneRow(defs, table, state', r)
    {
      assert Marked(state, r, 2) && DoneRow(defs, table, state, r);
      assert forall b :: Marked(state, b, 2) ==> Marked(state', b, 2);
    }
  }

  lemma GatherOne(defs: Defs, table: Table, state: Marks, name: Role, seen: seq<Role>, acc: set<Role>, inc: Role)
    requires Sound(defs, table, state) && Gathers(defs, table, state, name, seen, acc)
    requires Includes(defs, name, inc) && Marked(state, inc, 2)
    ensures Gathers(defs, table, state, name, seen + [inc], acc + {inc} + table[inc])
  {
    EdgeReaches(defs, name, inc);
    assert DoneRow(defs, table, state, inc);
    forall b | b in table[inc]
      ensures Reaches(defs, name, b)
    {
      ReachesTransitive(defs, name, inc, b);
    }
  }

  /** With every include gathered, the row is exact and the role can be marked done. */
  lemma FinishKeepsSound(defs: Defs, table: Table, state: Marks, name: Role, acc: set<Role>)
    requires Sound(defs, table, state) && name in defs && Marked(state, name, 1)
    requires Gathers(defs, table, state, name, defs[name], acc)
    ensures Sound(defs, table[name := acc], state[name := 2])
  {
    var table', state' := table[name := acc], state[name := 2];
    forall b | Reaches(defs, name, b)
      ensures b in acc
    {
      var inc := ReachesFirst(defs, name, b);
      assert inc in defs[name] && DoneRow(defs, table, state, inc);
    }
    assert ExactFor(defs, table', name);
    assert !Reaches(defs, name, name);
    forall r | Marked(state', r, 2)
      ensures DoneRow(defs, table', state', r)
    {
      if r != name {
        assert DoneRow(defs, table, state, r);
      }
    }
  }

  /** Every role in progress reaches `name`. */
  ghost predicate LeadTo(defs: Defs, state: Marks, name: Role) {
    forall g :: Marked(state, g, 1) ==> Reaches(defs, g, name)
  }

  /** While `name` is being resolved, the roles in progress reach what it includes. */
  lemma LeadFurther(defs: Defs, s0: Marks, state: Marks, name: Role, inc: Role)
    requires LeadTo(defs, s0, name) && Extends(s0[name := 1], state) && Includes(defs, name, inc)
    ensures LeadTo(defs, state, inc)
  {
    EdgeReaches(defs, name, inc);
    forall g | Marked(state, g, 1)
      ensures Reaches(defs, g, inc)
    {
      if g != name {
        assert Marked(s0[name := 1], g, 1) && Marked(s0, g, 1);
        ReachesTransitive(defs, g, name, inc);
      }
    }
  }

  /** What resolving one more include leaves true of the role that includes it. */
  lemma IncludeResolved(defs: Defs, begun: Marks, t0: Table, s0: Marks, t1: Table, s1: Marks,
                        name: Role, seen: seq<Role>, acc: set<Role>, inc: Role)
    requires Sound(defs, t0, s0) && Extends(begun, s0) && Gathers(defs, t0, s0, name, seen, acc)
    requires Sound(defs, t1, s1) && Extends(s0, s1) && Marked(s1, inc, 2) && Includes(defs, name, inc)
    ensures Extends(begun, s1) && inc in t1
    ensures Gathers(defs, t1, s1, name, seen + [inc], acc + {inc} + t1[inc])
  {
    ExtendsFurther(begun, s0, s1);
    assert DoneRow(defs, t1, s1, inc);
    GathersSurvives(defs, t0, s0, t1, s1, name, seen, acc);
    GatherOne(defs, t1, s1, name, seen, acc, inc);
  }

  lemma GathersSurvives(defs: Defs, t0: Table, s0: Marks, t1: Table, s1: Marks,
                        name: Role, seen: seq<Role>, acc: set<Role>)
    requires Sound(defs, t0, s0) && Sound(defs, t1, s1) && Gathers(defs, t0, s0, name, seen, acc)
    requires Extends(s0, s1)
    ensures Gathers(defs, t1, s1, name, seen, acc)
  {
    forall inc | inc in seen
      ensures Marked(s1, inc, 2) && inc in t1 && t1[inc] <= acc
    {
      assert DoneRow(defs, t0, s0, inc) && DoneRow(defs, t1, s1, inc);
      assert t1[inc] == t0[inc];
    }
  }

  lemma UndefinedReachesNothing(defs: Defs, a: Role, b: Role)
    requires a !in defs
    ensures !Reaches(defs, a, b)
  {
    if Reaches(defs, a, b) {
      var _ := ReachesFirst(defs, a, b);
    }
  }

  lemma AllDoneIsExact(defs: Defs, table: Table, state: Marks)
    requires Sound(defs, table, state)
    requires forall a :: a in defs ==> Marked(state, a, 2)
    ensures Exact(defs, table) && Acyclic(defs)
  {
    forall a | a in defs
      ensures ExactFor(defs, table, a) && !Reaches(defs, a, a)
    {
      assert DoneRow(defs, table, state, a);
    }
    forall a | a !in defs
      ensures !Reaches(defs, a, a)
    {
      UndefinedReachesNothing(defs, a, a);
    }
  }

  class Builder {
    const defs: Defs
    var ancestors: Table
    var state: Marks

    constructor (defs: Defs)
      ensures this.defs == defs && state == map[] && ancestors == map[]
    {
      this.defs, ancestors, state := defs, map[], map[];
    }

    /**
     * Terminates because each recursive call marks a role not marked before. A role met while
     * in progress reaches the role being resolved and is reached from it: a cycle.
     */
    method Resolve(name: Role) returns (problem: Option<Problem>)
      requires Closed(defs) && Sound(defs, ancestors, state) && name in defs
      requires LeadTo(defs, state, name)
      modifies this
      ensures Sound(defs, ancestors, state)
      ensures problem.None? ==> Marked(state, name, 2) && Extends(old(state), state)
      ensures problem.Some? ==> problem.value.Cyclic? && Reaches(defs, problem.value.role, problem.value.role)
      decreases defs.Keys - state.Keys
    {
      if name in state && state[name] == 2 {
        return None;
      }
      if name in state && state[name] == 1 {
        return Some(Cyclic(name));
      }
      BeginKeepsSound(defs, ancestors, state, name);
      state := state[name := 1];
      ghost var begun := state;
      var acc: set<Role> := {};
      var includes := defs[name];
      for i := 0 to |includes|
        invariant Sound(defs, ancestors, state) && Extends(begun, state)
        invariant Gathers(defs, ancestors, state, name, includes[..i], acc)
      {
        var inc := includes[i];
        assert Includes(defs, name, inc);
        LeadFurther(defs, old(state), state, name, inc);
        assert name in begun && begun.Keys <= state.Keys;
        ghost var table0, state0 := ancestors, state;
        problem := Resolve(inc);
        if problem.Some? {
          return;
        }
        IncludeResolved(defs, begun, table0, state0, ancestors, state, name, includes[..i], acc, inc);
        assert includes[..i + 1] == includes[..i] + [inc];
        acc := acc + {inc} + ancestors[inc];
      }
      assert includes[..|includes|] == includes;
      FinishKeepsSound(defs, ancestors, state, name, acc);
      ExtendsByOne(old(state), state, name);
      ancestors := ancestors[name := acc];
      state := state[name := 2];
      problem := None;
    }
  }

  /** The first include of an undefined role that the (arbitrarily ordered) search meets. */
  method FindUndefined(defs: Defs) returns (problem: Option<Problem>)
    ensures problem.None? <==> Closed(defs)
    ensures problem.Some? ==> problem.value.Undefined?
    ensures problem.Some? ==> Includes(defs, problem.value.role, problem.value.included)
    ensures problem.Some? ==> problem.value.included !in defs
  {
    var todo := defs.Keys;
    while todo != {}
      invariant todo <= defs.Keys
      invariant forall a, b :: a !in todo && Includes(defs, a, b) ==> b in defs
      decreases todo
    {
      var name :| name in todo;
      for i := 0 to |defs[name]|
        invariant forall j :: 0 <= j < i ==> defs[name][j] in defs
      {
        if defs[name][i] !in defs {
          assert Includes(defs, name, defs[name][i]);
          return Some(Undefined(name, defs[name][i]));
        }
      }
      todo := todo - {name};
    }
    problem := None;
  }

  /**
   * Construction is exact whatever order the definitions are visited in: it succeeds if and only
   * if every include is defined and no role reaches itself, and then the table holds for each
   * role precisely the roles it reaches. An error names a genuine culprit.
   */
  method NewDAG(defs: Defs) returns (r: Result<Table, Problem>)
    ensures r.Ok? <==> Closed(defs) && Acyclic(defs)
    ensures r.Ok? ==> Exact(defs, r.value)
    ensures r.Err? && r.error.Undefined? ==> Includes(defs, r.error.role, r.error.included) && r.error.included !in defs
    ensures r.Err? && r.error.Cyclic? ==> Closed(defs) && Reaches(defs, r.error.role, r.error.role)
  {
    var problem := FindUndefined(defs);
    if problem.Some? {
      return Err(problem.value);
    }
    var d := new Builder(defs);
    var todo := defs.Keys;
    while todo != {}
      invariant todo <= defs.Keys && d.defs == defs && Sound(defs, d.ancestors, d.state)
      invariant forall a :: !Marked(d.state, a, 1)
      invariant forall a :: a in defs && a !in todo ==> Marked(d.state, a, 2)
      decreases todo
    {
      var name :| name in todo;
      todo := todo - {name};
      problem := d.Resolve(name);
      if problem.Some? {
        return Err(problem.value);
      }
    }
    AllDoneIsExact(defs, d.ancestors, d.state);
    r := Ok(d.ancestors);
  }

  // ---------------------------------------------------------------------------------------
  // Lookup
  // ---------------------------------------------------------------------------------------

  function HasRole(table: Table, memberRole: Role, requiredRole: Role): bool {
    if requiredRole == "members" then true
    else if memberRole == requiredRole then true
    else if memberRole !in table then false
    else requiredRole in table[memberRole]
  }

  /** On a built table: equal, reached, or the role everyone has. */
  lemma HasRoleMeaning(defs: Defs, table: Table, a: Role, b: Role)
    requires Exact(defs, table)
    ensures HasRole(table, a, b) <==> b == "members" || a == b || Reaches(defs, a, b)
  {
    if Reaches(defs, a, b) {
      var _ := ReachesFirst(defs, a, b);
      assert ExactFor(defs, table, a);
    }
    if a in table {
      assert ExactFor(defs, table, a);
    }
  }

  lemma HasRoleTransitive(defs: Defs, table: Table, a: Role, b: Role, c: Role)
    requires Exact(defs, table) && b != "members"
    requires HasRole(table, a, b) && HasRole(table, b, c)
    ensures HasRole(table, a, c)
  {
    HasRoleMeaning(defs, table, a, b);
    HasRoleMeaning(defs, table, b, c);
    if a != b && b != c && c != "members" {
      ReachesTransitive(defs, a, b, c);
    }
    HasRoleMeaning(defs, table, a, c);
  }

  lemma FreshName(names: set<Role>, avoid: Role) returns (name: Role)
    ensures name !in names && name != avoid
  {
    var n := |avoid|;
    var todo := names;
    while todo != {}
      invariant todo <= names && n >= |avoid|
      invariant forall x :: x in names && x !in todo ==> |x| <= n
      decreases todo
    {
      var x :| x in todo;
      todo := todo - {x};
      n := if |x| > n then |x| else n;
    }
    name := seq(n + 1, _ => 'x');
  }

  /**
   * The hierarchy is transitive exactly when the role named "members", which everyone satisfies,
   * includes nothing itself.
   */
  lemma HasRoleIsTransitiveIff(defs: Defs, table: Table)
    requires Exact(defs, table) && Closed(defs) && Acyclic(defs)
    ensures (forall a, b, c :: HasRole(table, a, b) && HasRole(table, b, c) ==> HasRole(table, a, c)) <==>
            ("members" in defs ==> defs["members"] == [])
  {
    if "members" in defs && defs["members"] != [] {
      var c := defs["members"][0];
      assert Includes(defs, "members", c);
      EdgeReaches(defs, "members", c);
      assert c != "members";
      var a := FreshName(defs.Keys, c);
      HasRoleMeaning(defs, table, "members", c);
      assert HasRole(table, a, "members") && HasRole(table, "members", c) && !HasRole(table, a, c);
    } else {
      forall a, b, c | HasRole(table, a, b) && HasRole(table, b, c)
        ensures HasRole(table, a, c)
      {
        if b != "members" {
          HasRoleTransitive(defs, table, a, b, c);
        } else {
          HasRoleMeaning(defs, table, b, c);
          if Reaches(defs, b, c) {
            var _ := ReachesFirst(defs, b, c);
          }
        }
      }
    }
  }
}
