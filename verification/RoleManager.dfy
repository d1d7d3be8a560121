/** Role inheritance: the depth-first resolver of core/src/auth/role-manager.ts and the
    permission check built on it.

    `Resolve` is the resolver as a function of its two shared collections, the ancestor set
    `path` and the memo. The class `Resolution` is the same algorithm in place, and is proved
    equal to `Resolve`. What the resolver is for is `Granted`: the direct grants of every role
    that can be reached through the hierarchy. */
module RoleManager {

  /** A list that the configuration writes as `[..]` or as `{ value: [..] }`. */
  datatype ListField = Absent | Plain(items: seq<string>) | Wrapped(value: seq<string>) | Malformed {
    function Items(): seq<string> {
      match this
      case Plain(items) => items
      case Wrapped(value) => value
      case Absent => []
      case Malformed => []
    }
  }

  /** `recordTypes` is keyed by action: the entry "edit" is the field `can_edit`. */
  datatype RoleConfig = RoleConfig(permissions: ListField, recordTypes: map<string, seq<string>>)

  datatype RolesConfig = RolesConfig(roles: map<string, RoleConfig>, hierarchy: map<string, ListField>) {
    function Listed(role: string): seq<string> {
      if role in roles then roles[role].permissions.Items() else []
    }

    function Inherited(role: string): seq<string> {
      if role in hierarchy then hierarchy[role].Items() else []
    }

    /** What a role is given by itself; only a role that is not defined gets public's list. */
    function Direct(role: string): seq<string> {
      if role in roles then Listed(role) else Listed("public")
    }
  }

  // ----- insertion-ordered sets, as JavaScript's Set keeps them

  function Elements(s: seq<string>): set<string> {
    set x | x in s
  }

  predicate Distinct(s: seq<string>) {
    forall i, j | 0 <= i < j < |s| :: s[i] != s[j]
  }

  function AddAll(acc: seq<string>, more: seq<string>): (r: seq<string>)
    ensures Elements(r) == Elements(acc) + Elements(more)
    ensures Distinct(acc) ==> Distinct(r)
    decreases |more|
  {
    if more == [] then acc
    else
      assert more == [more[0]] + more[1..];
      AddAll(if more[0] in acc then acc else acc + [more[0]], more[1..])
  }

  // ----- the resolver

  type Memo = map<string, seq<string>>

  /** `calls` counts the invocations of the resolver, the outer one included. */
  datatype Answer = Answer(perms: seq<string>, memo: Memo, calls: nat)

  /** A role that is not defined falls back to public's own list. */
  function Conclusion(cfg: RolesConfig, role: string, perms: seq<string>): seq<string> {
    if role in cfg.roles then perms else AddAll(perms, cfg.Listed("public"))
  }

  function Resolve(cfg: RolesConfig, role: string, path: set<string>, memo: Memo): Answer
    decreases |cfg.hierarchy.Keys - path|, 0, 1
  {
    if role in memo then Answer(memo[role], memo, 1)
    else if role in path then Answer([], memo, 1)
    else
      PathGrows(cfg, role, path);
      var rest := ResolveAll(cfg, cfg.Inherited(role), path + {role}, memo, AddAll([], cfg.Listed(role)));
      var perms := Conclusion(cfg, role, rest.perms);
      Answer(perms, rest.memo[role := perms], 1 + rest.calls)
  }

  function ResolveAll(cfg: RolesConfig, todo: seq<string>, path: set<string>, memo: Memo, acc: seq<string>): Answer
    decreases |cfg.hierarchy.Keys - path|, |todo|, 0
  {
    if todo == [] then Answer(acc, memo, 0)
    else
      var first := Resolve(cfg, todo[0], path, memo);
      var rest := ResolveAll(cfg, todo[1..], path, first.memo, AddAll(acc, first.perms));
      rest.(calls := first.calls + rest.calls)
  }

  lemma PathGrows(cfg: RolesConfig, role: string, path: set<string>)
    requires role !in path
    ensures role in cfg.hierarchy ==> |cfg.hierarchy.Keys - (path + {role})| < |cfg.hierarchy.Keys - path|
    ensures role !in cfg.hierarchy ==> cfg.hierarchy.Keys - (path + {role}) == cfg.hierarchy.Keys - path
  {
    var now, before := cfg.hierarchy.Keys - (path + {role}), cfg.hierarchy.Keys - path;
    if role in cfg.hierarchy {
      assert before == now + {role};
    }
  }

  /** One resolution: the collections that the recursive calls share, updated in place. */
  class Resolution {
    const config: RolesConfig
    var path: set<string>
    var memo: Memo
    ghost var calls: nat

    constructor (config: RolesConfig)
      ensures this.config == config && path == {} && memo == map[] && calls == 0
    {
      this.config, path, memo, calls := config, {}, map[], 0;
    }

    method GetRolePermissions(role: string) returns (perms: seq<string>)
      modifies this
      ensures path == old(path)
      ensures Answer(perms, memo, calls) ==
              var a := Resolve(config, role, old(path), old(memo)); a.(calls := old(calls) + a.calls)
      decreases |config.hierarchy.Keys - path|, 0
    {
      calls := calls + 1;
      if role in memo {
        return memo[role];
      }
      if role in path {
        return [];
      }
      path := path + {role};
      PathGrows(config, role, old(path));
      perms := AddAll([], config.Listed(role));
      var inheritedRoles := config.Inherited(role);
      ghost var whole := ResolveAll(config, inheritedRoles, path, memo, perms);
      var i := 0;
      while i < |inheritedRoles|
        invariant 0 <= i <= |inheritedRoles|
        invariant path == old(path) + {role}
        invariant calls > old(calls)
        invariant whole == var a := ResolveAll(config, inheritedRoles[i..], path, memo, perms);
                           a.(calls := (calls - old(calls) - 1) + a.calls)
      {
        var inheritedPermissions := GetRolePermissions(inheritedRoles[i]);
        perms := AddAll(perms, inheritedPermissions);
        assert inheritedRoles[i..][1..] == inheritedRoles[i + 1..];
        i := i + 1;
      }
      if role !in config.roles {
        perms := AddAll(perms, config.Listed("public"));
      }
      path := path - {role};
      memo := memo[role := perms];
    }
  }

  // ----- the hierarchy as a graph

  ghost predicate Chain(cfg: RolesConfig, chain: seq<string>) {
    |chain| > 0 && forall i | 0 <= i < |chain| - 1 :: chain[i + 1] in cfg.Inherited(chain[i])
  }

  ghost predicate Joins(cfg: RolesConfig, chain: seq<string>, a: string, b: string) {
    Chain(cfg, chain) && chain[0] == a && chain[|chain| - 1] == b
  }

  ghost predicate Reaches(cfg: RolesConfig, a: string, b: string) {
    exists chain :: Joins(cfg, chain, a, b)
  }

  /** No two different roles that can be reached from this one inherit from each other. */
  ghost predicate Tame(cfg: RolesConfig, role: string) {
    forall x, y :: Reaches(cfg, role, x) && Reaches(cfg, x, y) && Reaches(cfg, y, x) ==> x == y
  }

  function Universe(cfg: RolesConfig, role: string): set<string> {
    {role} + set k, r | k in cfg.hierarchy && r in cfg.hierarchy[k].Items() :: r
  }

  ghost function Reachable(cfg: RolesConfig, role: string): set<string> {
    set r | r in Universe(cfg, role) && Reaches(cfg, role, r)
  }

  /** The direct grants of every reachable role. */
  ghost function Granted(cfg: RolesConfig, role: string): set<string> {
    set r, p | r in Reachable(cfg, role) && p in cfg.Direct(r) :: p
  }

  lemma ReachesItself(cfg: RolesConfig, a: string)
    ensures Reaches(cfg, a, a)
  {
    assert Joins(cfg, [a], a, a);
  }

  lemma ReachesCompose(cfg: RolesConfig, a: string, b: string, c: string)
    requires Reaches(cfg, a, b) && Reaches(cfg, b, c)
    ensures Reaches(cfg, a, c)
  {
    var ab :| Joins(cfg, ab, a, b);
    var bc :| Joins(cfg, bc, b, c);
    assert Joins(cfg, ab + bc[1..], a, c);
  }

  lemma ReachesChild(cfg: RolesConfig, a: string, c: string, b: string)
    requires c in cfg.Inherited(a) && Reaches(cfg, c, b)
    ensures Reaches(cfg, a, b)
  {
    var chain :| Joins(cfg, chain, c, b);
    assert Joins(cfg, [a] + chain, a, b);
  }

  /** Another role is reached through an inherited role that is not the role itself. */
  lemma {:induction false} ReachesUnfold(cfg: RolesConfig, a: string, b: string, chain: seq<string>)
    requires Joins(cfg, chain, a, b) && a != b
    ensures exists c :: c in cfg.Inherited(a) && c != a && Reaches(cfg, c, b)
    decreases |chain|
  {
    assert Joins(cfg, chain[1..], chain[1], b);
    if chain[1] == a {
      ReachesUnfold(cfg, a, b, chain[1..]);
    }
  }

  lemma ReachableIsReaches(cfg: RolesConfig, role: string, r: string)
    ensures r in Reachable(cfg, role) <==> Reaches(cfg, role, r)
  {
    if Reaches(cfg, role, r) {
      var chain :| Joins(cfg, chain, role, r);
      if |chain| > 1 {
        assert r in cfg.Inherited(chain[|chain| - 2]);
      }
    }
  }

  lemma GrantedHas(cfg: RolesConfig, role: string, r: string, p: string)
    requires Reaches(cfg, role, r) && p in cfg.Direct(r)
    ensures p in Granted(cfg, role)
  {
    ReachableIsReaches(cfg, role, r);
  }

  lemma GrantedOwn(cfg: RolesConfig, role: string)
    ensures Elements(cfg.Direct(role)) <= Granted(cfg, role)
  {
    ReachesItself(cfg, role);
    forall p | p in cfg.Direct(role) ensures p in Granted(cfg, role) {
      GrantedHas(cfg, role, role, p);
    }
  }

  lemma GrantedChild(cfg: RolesConfig, role: string, c: string)
    requires c in cfg.Inherited(role)
    ensures Granted(cfg, c) <= Granted(cfg, role)
  {
    forall p | p in Granted(cfg, c) ensures p in Granted(cfg, role) {
      var r :| r in Reachable(cfg, c) && p in cfg.Direct(r);
      ReachesChild(cfg, role, c, r);
      GrantedHas(cfg, role, r, p);
    }
  }

  lemma GrantedUnfold(cfg: RolesConfig, role: string, p: string)
    requires p in Granted(cfg, role)
    ensures p in cfg.Direct(role) || exists c :: c in cfg.Inherited(role) && c != role && p in Granted(cfg, c)
  {
    var r :| r in Reachable(cfg, role) && p in cfg.Direct(r);
    if r != role {
      var chain :| Joins(cfg, chain, role, r);
      ReachesUnfold(cfg, role, r, chain);
      var c :| c in cfg.Inherited(role) && c != role && Reaches(cfg, c, r);
      GrantedHas(cfg, c, r, p);
    }
  }

  lemma TameBelow(cfg: RolesConfig, a: string, b: string)
    requires Tame(cfg, a) && Reaches(cfg, a, b)
    ensures Tame(cfg, b)
  {
    forall x | Reaches(cfg, b, x) ensures Reaches(cfg, a, x) {
      ReachesCompose(cfg, a, b, x);
    }
  }

  // ----- how many edges leave a set of roles

  ghost function Edges(cfg: RolesConfig, s: set<string>): nat {
    if s == {} then 0 else var x :| x in s; |cfg.Inherited(x)| + Edges(cfg, s - {x})
  }

  lemma {:induction false} EdgesOf(cfg: RolesConfig, s: set<string>, x: string)
    requires x in s
    ensures Edges(cfg, s) == |cfg.Inherited(x)| + Edges(cfg, s - {x})
    decreases s
  {
    var y :| y in s && Edges(cfg, s) == |cfg.Inherited(y)| + Edges(cfg, s - {y});
    if y != x {
      EdgesOf(cfg, s - {y}, x);
      EdgesOf(cfg, s - {x}, y);
      assert s - {y} - {x} == s - {x} - {y};
    }
  }

  // ----- what one call keeps and adds

  /** The memo may mention the roles on the path but holds no answer for them; every answer is
      sound and holds the role's own grants; and it is complete for a tame role. */
  ghost predicate MemoOk(cfg: RolesConfig, path: set<string>, memo: Memo) {
    && memo.Keys !! path
    && (forall x, c :: x in memo && c in cfg.Inherited(x) ==> c in memo || c in path)
    && (forall x | x in memo :: EntryOk(cfg, x, memo[x]))
  }

  ghost predicate EntryOk(cfg: RolesConfig, x: string, perms: seq<string>) {
    && Distinct(perms)
    && Elements(cfg.Direct(x)) <= Elements(perms) <= Granted(cfg, x)
    && (Tame(cfg, x) ==> Granted(cfg, x) == Elements(perms))
  }

  /** The memo only grows, every new answer is below `perms`, and the calls made are one for
      each edge that leaves a newly answered role. */
  ghost predicate Grew(cfg: RolesConfig, before: Memo, a: Answer, outer: nat) {
    && before.Keys <= a.memo.Keys
    && (forall x | x in before :: a.memo[x] == before[x])
    && (forall x | x in a.memo && x !in before :: Elements(a.memo[x]) <= Elements(a.perms))
    && a.calls + Edges(cfg, before.Keys) == outer + Edges(cfg, a.memo.Keys)
  }

  /** What a call on `role` promises. */
  ghost predicate CallOk(cfg: RolesConfig, role: string, path: set<string>, memo: Memo, a: Answer) {
    && MemoOk(cfg, path, a.memo)
    && Grew(cfg, memo, a, 1)
    && Distinct(a.perms)
    && (role in a.memo || role in path)
    && (forall x | x in a.memo && x !in memo :: Reaches(cfg, role, x))
    && Elements(a.perms) <= Granted(cfg, role)
    && (Tame(cfg, role) && role !in path ==> Granted(cfg, role) == Elements(a.perms))
  }

  /** What the loop over the inherited roles of `owner` promises. */
  ghost predicate LoopOk(cfg: RolesConfig, owner: string, todo: seq<string>, path: set<string>, memo: Memo, acc: seq<string>, a: Answer) {
    && MemoOk(cfg, path, a.memo)
    && Grew(cfg, memo, a, |todo|)
    && Distinct(a.perms)
    && (forall c | c in todo :: c in a.memo || c in path)
    && (forall x | x in a.memo && x !in memo :: Reaches(cfg, owner, x))
    && Elements(acc) <= Elements(a.perms) <= Granted(cfg, owner)
    && (Tame(cfg, owner) ==> forall c | c in todo && c != owner :: Granted(cfg, c) <= Elements(a.perms))
  }

  lemma {:induction false} ResolveKeeps(cfg: RolesConfig, role: string, path: set<string>, memo: Memo)
    requires MemoOk(cfg, path, memo)
    requires forall p | p in path :: Reaches(cfg, p, role)
    ensures CallOk(cfg, role, path, memo, Resolve(cfg, role, path, memo))
    decreases |cfg.hierarchy.Keys - path|, 0, 1
  {
    if role in memo || role in path {
      CutOff(cfg, role, path, memo);
    } else {
      PathGrows(cfg, role, path);
      ReachesItself(cfg, role);
      GrantedOwn(cfg, role);
      var own := AddAll([], cfg.Listed(role));
      ResolveAllKeeps(cfg, role, cfg.Inherited(role), path + {role}, memo, own);
      Conclude(cfg, role, path, memo, ResolveAll(cfg, cfg.Inherited(role), path + {role}, memo, own));
    }
  }

  /** A call that is answered from the memo, or cut off because the role is its own ancestor. */
  lemma CutOff(cfg: RolesConfig, role: string, path: set<string>, memo: Memo)
    requires MemoOk(cfg, path, memo) && (role in memo || role in path)
    ensures CallOk(cfg, role, path, memo, Answer(if role in memo then memo[role] else [], memo, 1))
  {
    if role in memo {
      assert EntryOk(cfg, role, memo[role]);
    } else {
      assert Elements([]) == {};
    }
  }

  /** Own grants, inherited grants and the public fallback make the answer of a role. */
  lemma ConcludeEntry(cfg: RolesConfig, role: string, perms: seq<string>)
    requires Distinct(perms) && Elements(cfg.Listed(role)) <= Elements(perms) <= Granted(cfg, role)
    requires Tame(cfg, role) ==> forall c | c in cfg.Inherited(role) && c != role :: Granted(cfg, c) <= Elements(perms)
    ensures EntryOk(cfg, role, Conclusion(cfg, role, perms))
  {
    GrantedOwn(cfg, role);
    if Tame(cfg, role) {
      forall p | p in Granted(cfg, role) ensures p in Elements(Conclusion(cfg, role, perms)) {
        GrantedUnfold(cfg, role, p);
      }
    }
  }

  /** The last step of a call: the finished role leaves the path and enters the memo. */
  lemma Conclude(cfg: RolesConfig, role: string, path: set<string>, memo: Memo, rest: Answer)
    requires role !in path && role !in memo
    requires LoopOk(cfg, role, cfg.Inherited(role), path + {role}, memo, AddAll([], cfg.Listed(role)), rest)
    ensures var perms := Conclusion(cfg, role, rest.perms);
            CallOk(cfg, role, path, memo, Answer(perms, rest.memo[role := perms], 1 + rest.calls))
  {
    var perms := Conclusion(cfg, role, rest.perms);
    ReachesItself(cfg, role);
    ConcludeEntry(cfg, role, rest.perms);
    ConcludeMemo(cfg, role, path, rest.memo, perms);
    ConcludeGrew(cfg, role, memo, rest, perms);
  }

  lemma ConcludeMemo(cfg: RolesConfig, role: string, path: set<string>, memo: Memo, perms: seq<string>)
    requires role !in path && MemoOk(cfg, path + {role}, memo) && EntryOk(cfg, role, perms)
    requires forall c | c in cfg.Inherited(role) :: c in memo || c in path + {role}
    ensures MemoOk(cfg, path, memo[role := perms])
  {
  }

  lemma ConcludeGrew(cfg: RolesConfig, role: string, memo: Memo, rest: Answer, perms: seq<string>)
    requires role !in memo && role !in rest.memo && Elements(rest.perms) <= Elements(perms)
    requires Grew(cfg, memo, rest, |cfg.Inherited(role)|)
    ensures Grew(cfg, memo, Answer(perms, rest.memo[role := perms], 1 + rest.calls), 1)
  {
    var after := rest.memo[role := perms];
    assert after.Keys == rest.memo.Keys + {role};
    EdgesOf(cfg, after.Keys, role);
    assert after.Keys - {role} == rest.memo.Keys;
  }

  lemma {:induction false} ResolveAllKeeps(cfg: RolesConfig, owner: string, todo: seq<string>, path: set<string>, memo: Memo, acc: seq<string>)
    requires MemoOk(cfg, path, memo) && Distinct(acc)
    requires owner in path && forall p | p in path :: Reaches(cfg, p, owner)
    requires forall c | c in todo :: c in cfg.Inherited(owner)
    requires Elements(acc) <= Granted(cfg, owner)
    ensures LoopOk(cfg, owner, todo, path, memo, acc, ResolveAll(cfg, todo, path, memo, acc))
    decreases |cfg.hierarchy.Keys - path|, |todo|, 0
  {
    if todo != [] {
      var c := todo[0];
      assert todo == [c] + todo[1..];
      ReachesItself(cfg, c);
      ReachesChild(cfg, owner, c, c);
      forall p | p in path ensures Reaches(cfg, p, c) {
        ReachesCompose(cfg, p, owner, c);
      }
      ResolveKeeps(cfg, c, path, memo);
      GrantedChild(cfg, owner, c);
      if Tame(cfg, owner) {
        TameBelow(cfg, owner, c);
      }
      var first := Resolve(cfg, c, path, memo);
      assert Tame(cfg, owner) && c != owner ==> Granted(cfg, c) <= Elements(first.perms);
      ResolveAllKeeps(cfg, owner, todo[1..], path, first.memo, AddAll(acc, first.perms));
      forall x | Reaches(cfg, c, x) ensures Reaches(cfg, owner, x) {
        ReachesChild(cfg, owner, c, x);
      }
    }
  }

  // ----- the resolver is exact

  lemma {:induction false} ClosedMemoHolds(cfg: RolesConfig, memo: Memo, chain: seq<string>)
    requires MemoOk(cfg, {}, memo) && Chain(cfg, chain) && chain[0] in memo
    ensures chain[|chain| - 1] in memo
    decreases |chain|
  {
    if |chain| > 1 {
      ClosedMemoHolds(cfg, memo, chain[1..]);
    }
  }

  /** Nothing reachable is missing from the memo, or its own grants from the answer. */
  lemma NothingMissing(cfg: RolesConfig, role: string, x: string)
    requires Reaches(cfg, role, x)
    ensures var a := Resolve(cfg, role, {}, map[]); x in a.memo && Elements(cfg.Direct(x)) <= Elements(a.perms)
  {
    var a := Resolve(cfg, role, {}, map[]);
    ResolveKeeps(cfg, role, {}, map[]);
    var chain :| Joins(cfg, chain, role, x);
    ClosedMemoHolds(cfg, a.memo, chain);
    assert EntryOk(cfg, x, a.memo[x]);
  }

  lemma MemoIsReachable(cfg: RolesConfig, role: string)
    ensures Resolve(cfg, role, {}, map[]).memo.Keys == Reachable(cfg, role)
  {
    var memo := Resolve(cfg, role, {}, map[]).memo;
    ResolveKeeps(cfg, role, {}, map[]);
    forall x ensures x in Reachable(cfg, role) <==> x in memo {
      ReachableIsReaches(cfg, role, x);
      if Reaches(cfg, role, x) {
        NothingMissing(cfg, role, x);
      }
    }
  }

  /** For every configuration, cyclic or not, a resolution that starts empty answers with
      exactly the grants of the reachable roles, none twice; it expands every reachable role
      once and makes one call for every edge that leaves one, besides the first; and what it
      memoizes for a role is sound, and complete for a tame role. */
  lemma ResolvesExactly(cfg: RolesConfig, role: string)
    ensures var a := Resolve(cfg, role, {}, map[]);
            && Elements(a.perms) == Granted(cfg, role) && Distinct(a.perms)
            && a.memo.Keys == Reachable(cfg, role)
            && a.calls == 1 + Edges(cfg, Reachable(cfg, role))
            && (forall x | x in a.memo :: EntryOk(cfg, x, a.memo[x]))
  {
    var a := Resolve(cfg, role, {}, map[]);
    ResolveKeeps(cfg, role, {}, map[]);
    MemoIsReachable(cfg, role);
    forall p | p in Granted(cfg, role) ensures p in Elements(a.perms) {
      var r :| r in Reachable(cfg, role) && p in cfg.Direct(r);
      NothingMissing(cfg, role, r);
      assert p in Elements(cfg.Direct(r));
    }
  }

  // ----- the grants of a role in terms of the configuration as it is written

  /** The field is a list with the item, or an object whose value is one. */
  predicate HasItem(field: ListField, item: string) {
    (field.Plain? && item in field.items) || (field.Wrapped? && item in field.value)
  }

  predicate InheritsDirectly(cfg: RolesConfig, a: string, b: string) {
    a in cfg.hierarchy && HasItem(cfg.hierarchy[a], b)
  }

  predicate Gives(cfg: RolesConfig, role: string, p: string) {
    if role in cfg.roles then HasItem(cfg.roles[role].permissions, p)
    else "public" in cfg.roles && HasItem(cfg.roles["public"].permissions, p)
  }

  /** From the role, a chain of entries of the hierarchy leads to one that gives the permission. */
  ghost predicate GivenAlong(cfg: RolesConfig, chain: seq<string>, role: string, p: string) {
    && |chain| > 0 && chain[0] == role && Gives(cfg, chain[|chain| - 1], p)
    && forall i | 0 <= i < |chain| - 1 :: InheritsDirectly(cfg, chain[i], chain[i + 1])
  }

  ghost predicate IsGiven(cfg: RolesConfig, role: string, p: string) {
    exists chain :: GivenAlong(cfg, chain, role, p)
  }

  lemma GrantedIffGiven(cfg: RolesConfig, role: string, p: string)
    ensures p in Granted(cfg, role) <==> IsGiven(cfg, role, p)
  {
    if p in Granted(cfg, role) {
      var r :| r in Reachable(cfg, role) && p in cfg.Direct(r);
      var chain :| Joins(cfg, chain, role, r);
      forall i | 0 <= i < |chain| - 1 ensures InheritsDirectly(cfg, chain[i], chain[i + 1]) {
        assert chain[i + 1] in cfg.Inherited(chain[i]);
      }
      assert GivenAlong(cfg, chain, role, p);
    }
    if IsGiven(cfg, role, p) {
      var chain :| GivenAlong(cfg, chain, role, p);
      forall i | 0 <= i < |chain| - 1 ensures chain[i + 1] in cfg.Inherited(chain[i]) {
        assert InheritsDirectly(cfg, chain[i], chain[i + 1]);
      }
      assert Joins(cfg, chain, role, chain[|chain| - 1]);
      GrantedHas(cfg, role, chain[|chain| - 1], p);
    }
  }

  method GetUserPermissions(cfg: RolesConfig, role: string) returns (perms: seq<string>)
    ensures forall p :: p in perms <==> IsGiven(cfg, role, p)
    ensures Distinct(perms)
  {
    var resolution := new Resolution(cfg);
    perms := resolution.GetRolePermissions(role);
    ResolvesExactly(cfg, role);
    forall p ensures p in perms <==> IsGiven(cfg, role, p) {
      assert p in perms <==> p in Elements(perms);
      GrantedIffGiven(cfg, role, p);
    }
  }

  /** Inside a cycle the memo does hold partial answers: with a and b inheriting from each other,
      resolving a memoizes for b a list without a's grant. */
  lemma CycleMemoIsPartial()
    ensures var cfg := RolesConfig(map["a" := RoleConfig(Plain(["x"]), map[]), "b" := RoleConfig(Plain(["y"]), map[])],
                                   map["a" := Plain(["b"]), "b" := Plain(["a"])]);
            var a := Resolve(cfg, "a", {}, map[]);
            "b" in a.memo && "x" !in a.memo["b"] && "x" in Granted(cfg, "b")
  {
    var cfg := RolesConfig(map["a" := RoleConfig(Plain(["x"]), map[]), "b" := RoleConfig(Plain(["y"]), map[])],
                           map["a" := Plain(["b"]), "b" := Plain(["a"])]);
    assert Resolve(cfg, "a", {"a", "b"}, map[]) == Answer([], map[], 1);
    var inB := ResolveAll(cfg, ["a"], {"a", "b"}, map[], ["y"]);
    assert inB == Answer(["y"], map[], 1);
    assert {"a"} + {"b"} == {"a", "b"} && {} + {"a"} == {"a"};
    assert AddAll([], ["y"]) == ["y"] && AddAll([], ["x"]) == ["x"];
    var b := Resolve(cfg, "b", {"a"}, map[]);
    assert b == Answer(["y"], map["b" := ["y"]], 2);
    var inA := ResolveAll(cfg, ["b"], {"a"}, map[], ["x"]);
    assert inA.memo == map["b" := ["y"]];
    assert Joins(cfg, ["b", "a"], "b", "a");
    GrantedHas(cfg, "b", "a", "x");
  }

  // ----- which memo entries are complete

  /** The roles have grants, and no grant in common. */
  ghost predicate UniqueGrants(cfg: RolesConfig, roles: set<string>) {
    && (forall x | x in roles :: cfg.Direct(x) != [])
    && (forall x, y | x in roles && y in roles && x != y :: Elements(cfg.Direct(x)) !! Elements(cfg.Direct(y)))
  }

  ghost function OwnGrants(cfg: RolesConfig, roles: set<string>): set<string> {
    set r, p | r in roles && p in cfg.Direct(r) :: p
  }

  ghost predicate Closed(cfg: RolesConfig, roles: set<string>) {
    forall x, c | x in roles && c in cfg.Inherited(x) :: c in roles
  }

  /** Answers draw on finished roles only, so that of two finished roles one knows nothing of the
      other. */
  ghost predicate InOrder(cfg: RolesConfig, memo: Memo) {
    && (forall x | x in memo :: Elements(memo[x]) <= OwnGrants(cfg, memo.Keys))
    && (forall x, y | x in memo && y in memo && x != y ::
          Elements(cfg.Direct(x)) !! Elements(memo[y]) || Elements(cfg.Direct(y)) !! Elements(memo[x]))
  }

  ghost predicate OrderKept(cfg: RolesConfig, roles: set<string>, path: set<string>, memo: Memo, a: Answer, also: set<string>) {
    && InOrder(cfg, a.memo) && memo.Keys <= a.memo.Keys <= roles
    && (forall x | x in path && x !in memo :: x !in a.memo)
    && Elements(a.perms) <= OwnGrants(cfg, a.memo.Keys + also)
  }

  lemma {:induction false} ResolveInOrder(cfg: RolesConfig, roles: set<string>, role: string, path: set<string>, memo: Memo)
    requires Closed(cfg, roles) && UniqueGrants(cfg, roles) && role in roles && memo.Keys <= roles && InOrder(cfg, memo)
    ensures OrderKept(cfg, roles, path, memo, Resolve(cfg, role, path, memo), {})
    decreases |cfg.hierarchy.Keys - path|, 0, 1
  {
    if role in memo || role in path {
      assert memo.Keys + {} == memo.Keys && Elements([]) == {};
    } else {
      PathGrows(cfg, role, path);
      var own := AddAll([], cfg.Listed(role));
      OwnListIsOwn(cfg, role, memo.Keys + {role});
      ResolveAllInOrder(cfg, roles, role, cfg.Inherited(role), path + {role}, memo, own);
      FinishInOrder(cfg, roles, role, path, memo, ResolveAll(cfg, cfg.Inherited(role), path + {role}, memo, own));
    }
  }

  lemma OwnListIsOwn(cfg: RolesConfig, role: string, roles: set<string>)
    requires role in roles
    ensures Elements(AddAll([], cfg.Listed(role))) <= OwnGrants(cfg, roles)
  {
    forall p | p in cfg.Listed(role) ensures p in OwnGrants(cfg, roles) {
      assert role in roles && p in cfg.Direct(role);
    }
    assert Elements(AddAll([], cfg.Listed(role))) == Elements(cfg.Listed(role));
  }

  lemma FinishInOrder(cfg: RolesConfig, roles: set<string>, role: string, path: set<string>, memo: Memo, rest: Answer)
    requires UniqueGrants(cfg, roles) && role in roles && role !in memo && role !in path
    requires OrderKept(cfg, roles, path + {role}, memo, rest, {role})
    ensures var perms := Conclusion(cfg, role, rest.perms);
            OrderKept(cfg, roles, path, memo, Answer(perms, rest.memo[role := perms], 1 + rest.calls), {})
  {
    var perms := Conclusion(cfg, role, rest.perms);
    var after := rest.memo[role := perms];
    assert after.Keys == rest.memo.Keys + {role} == after.Keys + {};
    assert OwnGrants(cfg, rest.memo.Keys) <= OwnGrants(cfg, after.Keys);
    assert Elements(perms) <= OwnGrants(cfg, after.Keys);
    forall y | y in rest.memo ensures Elements(cfg.Direct(role)) !! Elements(rest.memo[y]) {
      OwnGrantsApart(cfg, roles, rest.memo.Keys, role);
    }
  }

  lemma OwnGrantsApart(cfg: RolesConfig, roles: set<string>, some: set<string>, role: string)
    requires UniqueGrants(cfg, roles) && some <= roles && role in roles && role !in some
    ensures Elements(cfg.Direct(role)) !! OwnGrants(cfg, some)
  {
    forall p | p in OwnGrants(cfg, some) ensures p !in Elements(cfg.Direct(role)) {
      var r :| r in some && p in cfg.Direct(r);
      assert p in Elements(cfg.Direct(r));
    }
  }

  lemma {:induction false} ResolveAllInOrder(cfg: RolesConfig, roles: set<string>, owner: string, todo: seq<string>, path: set<string>, memo: Memo,
      acc: seq<string>)
    requires Closed(cfg, roles) && UniqueGrants(cfg, roles) && owner in roles && memo.Keys <= roles && InOrder(cfg, memo)
    requires forall c | c in todo :: c in cfg.Inherited(owner)
    requires Elements(acc) <= OwnGrants(cfg, memo.Keys + {owner})
    ensures OrderKept(cfg, roles, path, memo, ResolveAll(cfg, todo, path, memo, acc), {owner})
    decreases |cfg.hierarchy.Keys - path|, |todo|, 0
  {
    if todo != [] {
      assert todo == [todo[0]] + todo[1..];
      ResolveInOrder(cfg, roles, todo[0], path, memo);
      var first := Resolve(cfg, todo[0], path, memo);
      assert first.memo.Keys + {} == first.memo.Keys;
      assert OwnGrants(cfg, memo.Keys + {owner}) <= OwnGrants(cfg, first.memo.Keys + {owner});
      assert OwnGrants(cfg, first.memo.Keys) <= OwnGrants(cfg, first.memo.Keys + {owner});
      ResolveAllInOrder(cfg, roles, owner, todo[1..], path, first.memo, AddAll(acc, first.perms));
    }
  }

  lemma ReachableIsClosed(cfg: RolesConfig, role: string)
    ensures Closed(cfg, Reachable(cfg, role)) && role in Reachable(cfg, role)
  {
    ReachesItself(cfg, role);
    forall x, c | x in Reachable(cfg, role) && c in cfg.Inherited(x) ensures c in Reachable(cfg, role) {
      ReachesItself(cfg, c);
      ReachesChild(cfg, x, c, c);
      ReachesCompose(cfg, role, x, c);
      ReachableIsReaches(cfg, role, c);
    }
  }

  /** The memo holds complete answers only, as its comment promises, if and only if no two
      different reachable roles inherit from each other. (Where grants are shared an incomplete
      answer can be right by chance; unique grants rule that out.) */
  lemma MemoIsCompleteIff(cfg: RolesConfig, role: string)
    requires UniqueGrants(cfg, Reachable(cfg, role))
    ensures MemoIsComplete(cfg, role) <==> Tame(cfg, role)
  {
    var memo := Resolve(cfg, role, {}, map[]).memo;
    ResolvesExactly(cfg, role);
    if Tame(cfg, role) {
      TameMemoIsComplete(cfg, role);
    } else {
      var x, y :| Reaches(cfg, role, x) && Reaches(cfg, x, y) && Reaches(cfg, y, x) && x != y;
      ReachesCompose(cfg, role, x, y);
      ReachableIsReaches(cfg, role, x);
      ReachableIsReaches(cfg, role, y);
      ReachableIsClosed(cfg, role);
      ResolveInOrder(cfg, Reachable(cfg, role), role, {}, map[]);
      OneIsIncomplete(cfg, memo, x, y);
    }
  }

  lemma OneIsIncomplete(cfg: RolesConfig, memo: Memo, x: string, y: string)
    requires InOrder(cfg, memo) && x in memo && y in memo && x != y
    requires cfg.Direct(x) != [] && cfg.Direct(y) != [] && Reaches(cfg, x, y) && Reaches(cfg, y, x)
    ensures Elements(memo[x]) != Granted(cfg, x) || Elements(memo[y]) != Granted(cfg, y)
  {
    GrantedHas(cfg, x, y, cfg.Direct(y)[0]);
    GrantedHas(cfg, y, x, cfg.Direct(x)[0]);
    assert cfg.Direct(y)[0] in Elements(cfg.Direct(y)) && cfg.Direct(x)[0] in Elements(cfg.Direct(x));
  }

  ghost predicate MemoIsComplete(cfg: RolesConfig, role: string) {
    var memo := Resolve(cfg, role, {}, map[]).memo;
    forall x | x in memo :: Elements(memo[x]) == Granted(cfg, x)
  }

  /** Other permissions for the same roles in the same hierarchy. */
  ghost predicate SameHierarchy(cfg: RolesConfig, cfg': RolesConfig) {
    cfg'.hierarchy == cfg.hierarchy && cfg'.roles.Keys == cfg.roles.Keys
  }

  /** Every role grants one permission, named after it. */
  function NameGrants(cfg: RolesConfig): RolesConfig {
    cfg.(roles := map r | r in cfg.roles :: RoleConfig(Plain([r]), map[]))
  }

  lemma SameReaches(cfg: RolesConfig, cfg': RolesConfig, a: string, b: string)
    requires cfg'.hierarchy == cfg.hierarchy
    ensures Reaches(cfg, a, b) <==> Reaches(cfg', a, b)
  {
    if Reaches(cfg, a, b) {
      var chain :| Joins(cfg, chain, a, b);
      assert Joins(cfg', chain, a, b);
    }
    if Reaches(cfg', a, b) {
      var chain :| Joins(cfg', chain, a, b);
      assert Joins(cfg, chain, a, b);
    }
  }

  lemma SameTame(cfg: RolesConfig, cfg': RolesConfig, role: string)
    requires cfg'.hierarchy == cfg.hierarchy
    ensures Tame(cfg, role) <==> Tame(cfg', role)
  {
    forall a, b ensures Reaches(cfg, a, b) <==> Reaches(cfg', a, b) {
      SameReaches(cfg, cfg', a, b);
    }
  }

  lemma TameMemoIsComplete(cfg: RolesConfig, role: string)
    requires Tame(cfg, role)
    ensures MemoIsComplete(cfg, role)
  {
    var memo := Resolve(cfg, role, {}, map[]).memo;
    ResolvesExactly(cfg, role);
    forall x | x in memo ensures Elements(memo[x]) == Granted(cfg, x) {
      ReachableIsReaches(cfg, role, x);
      TameBelow(cfg, role, x);
      assert EntryOk(cfg, x, memo[x]);
    }
  }

  /** Whatever the roles are granted, the memo holds complete answers only, if and only if the
      hierarchy below the role is tame. */
  lemma HierarchyDecidesMemo(cfg: RolesConfig, role: string)
    requires Reachable(cfg, role) <= cfg.roles.Keys
    ensures (forall cfg' | SameHierarchy(cfg, cfg') :: MemoIsComplete(cfg', role)) <==> Tame(cfg, role)
  {
    forall cfg' | SameHierarchy(cfg, cfg') && Tame(cfg, role) ensures MemoIsComplete(cfg', role) {
      SameTame(cfg, cfg', role);
      TameMemoIsComplete(cfg', role);
    }
    var named := NameGrants(cfg);
    assert SameHierarchy(cfg, named);
    forall x | x in Reachable(named, role) ensures named.Direct(x) == [x] {
      ReachableIsReaches(named, role, x);
      SameReaches(cfg, named, role, x);
      ReachableIsReaches(cfg, role, x);
    }
    MemoIsCompleteIff(named, role);
    SameTame(cfg, named, role);
  }

  // ----- permission checks

  datatype Context = NoContext | RecordContext(recordType: string, action: string)

  datatype Request = One(permission: string) | AnyOf(permissions: seq<string>)

  /** A grant by record type; a role that is not defined uses public's. */
  predicate RecordTypeGrants(cfg: RolesConfig, role: string, context: Context) {
    var owner := if role in cfg.roles then role else "public";
    && context.RecordContext? && context.recordType != "" && context.action != ""
    && owner in cfg.roles && context.action in cfg.roles[owner].recordTypes
    && context.recordType in cfg.roles[owner].recordTypes[context.action]
  }

  predicate CheckPermission(cfg: RolesConfig, role: string, permission: string, context: Context) {
    var perms := Resolve(cfg, role, {}, map[]).perms;
    permission in perms || "*" in perms || RecordTypeGrants(cfg, role, context)
  }

  predicate UserCan(cfg: RolesConfig, role: string, request: Request, context: Context) {
    match request
    case One(p) => CheckPermission(cfg, role, p, context)
    case AnyOf(ps) => exists p | p in ps :: CheckPermission(cfg, role, p, context)
  }

  ghost predicate Allows(cfg: RolesConfig, role: string, permission: string, context: Context) {
    permission in Granted(cfg, role) || "*" in Granted(cfg, role) || RecordTypeGrants(cfg, role, context)
  }

  /** A check grants exactly what the reachable roles grant, by name or by wildcard, or what the
      role's own record types grant. */
  lemma CheckPermissionIff(cfg: RolesConfig, role: string, permission: string, context: Context)
    ensures CheckPermission(cfg, role, permission, context) <==> Allows(cfg, role, permission, context)
  {
    ResolvesExactly(cfg, role);
    var perms := Resolve(cfg, role, {}, map[]).perms;
    assert forall p :: p in perms <==> p in Elements(perms);
  }

  /** A list of permissions is granted when one of them is. */
  lemma UserCanIff(cfg: RolesConfig, role: string, request: Request, context: Context)
    ensures UserCan(cfg, role, request, context) <==>
            if request.One? then Allows(cfg, role, request.permission, context)
            else exists p :: p in request.permissions && Allows(cfg, role, p, context)
  {
    forall p ensures CheckPermission(cfg, role, p, context) <==> Allows(cfg, role, p, context) {
      CheckPermissionIff(cfg, role, p, context);
    }
  }

  predicate HasRecordType(entry: RoleConfig, action: string, recordType: string) {
    action in entry.recordTypes && recordType in entry.recordTypes[action]
  }

  /** The permission or the wildcard is given along the hierarchy, or the role's own record types,
      or public's if the role is not defined, have the type for the action. */
  ghost predicate MayDo(cfg: RolesConfig, role: string, p: string, context: Context) {
    || IsGiven(cfg, role, p) || IsGiven(cfg, role, "*")
    || match context
       case NoContext => false
       case RecordContext(recordType, action) =>
         && recordType != "" && action != ""
         && if role in cfg.roles then HasRecordType(cfg.roles[role], action, recordType)
            else "public" in cfg.roles && HasRecordType(cfg.roles["public"], action, recordType)
  }

  /** The check decides exactly that, for one permission or for any of a list. */
  lemma UserCanIffMayDo(cfg: RolesConfig, role: string, request: Request, context: Context)
    ensures UserCan(cfg, role, request, context) <==>
            match request
            case One(p) => MayDo(cfg, role, p, context)
            case AnyOf(ps) => exists p :: p in ps && MayDo(cfg, role, p, context)
  {
    UserCanIff(cfg, role, request, context);
    GrantedIffGiven(cfg, role, "*");
    forall p ensures Allows(cfg, role, p, context) <==> MayDo(cfg, role, p, context) {
      GrantedIffGiven(cfg, role, p);
    }
  }

  /** The second configuration takes nothing away, role by role. */
  ghost predicate Grows(cfg: RolesConfig, cfg': RolesConfig) {
    && (forall r :: Elements(cfg.Direct(r)) <= Elements(cfg'.Direct(r)))
    && (forall r :: Elements(cfg.Inherited(r)) <= Elements(cfg'.Inherited(r)))
    && (forall r, context :: RecordTypeGrants(cfg, r, context) ==> RecordTypeGrants(cfg', r, context))
  }

  lemma GrantedGrows(cfg: RolesConfig, cfg': RolesConfig, role: string)
    requires Grows(cfg, cfg')
    ensures Granted(cfg, role) <= Granted(cfg', role)
  {
    forall p | p in Granted(cfg, role) ensures p in Granted(cfg', role) {
      var r :| r in Reachable(cfg, role) && p in cfg.Direct(r);
      var chain :| Joins(cfg, chain, role, r);
      forall i | 0 <= i < |chain| - 1 ensures chain[i + 1] in cfg'.Inherited(chain[i]) {
        assert chain[i + 1] in Elements(cfg.Inherited(chain[i]));
      }
      assert Joins(cfg', chain, role, r);
      assert p in Elements(cfg.Direct(r));
      GrantedHas(cfg', role, r, p);
    }
  }

  /** Adding hierarchy edges or permissions never turns a grant into a denial. */
  lemma GrantsSurviveGrowth(cfg: RolesConfig, cfg': RolesConfig, role: string, request: Request, context: Context)
    requires Grows(cfg, cfg') && UserCan(cfg, role, request, context)
    ensures UserCan(cfg', role, request, context)
  {
    GrantedGrows(cfg, cfg', role);
    UserCanIff(cfg, role, request, context);
    UserCanIff(cfg', role, request, context);
  }

  /** While the set of defined roles stays fixed, longer lists are growth. */
  lemma FixedRolesGrow(cfg: RolesConfig, cfg': RolesConfig)
    requires cfg.roles.Keys == cfg'.roles.Keys
    requires forall r | r in cfg.roles ::
               && Elements(cfg.Listed(r)) <= Elements(cfg'.Listed(r))
               && forall a | a in cfg.roles[r].recordTypes :: a in cfg'.roles[r].recordTypes &&
                    Elements(cfg.roles[r].recordTypes[a]) <= Elements(cfg'.roles[r].recordTypes[a])
    requires forall r | r in cfg.hierarchy :: Elements(cfg.Inherited(r)) <= Elements(cfg'.Inherited(r))
    ensures Grows(cfg, cfg')
  {
    forall r, context | RecordTypeGrants(cfg, r, context) ensures RecordTypeGrants(cfg', r, context) {
      var owner := if r in cfg.roles then r else "public";
      assert context.recordType in Elements(cfg.roles[owner].recordTypes[context.action]);
    }
  }

  // ----- exactly when a change of the configuration denies nothing

  lemma {:induction false} LongerThanAll(texts: set<string>) returns (n: nat)
    ensures forall t | t in texts :: |t| < n
  {
    if texts == {} {
      n := 0;
    } else {
      var t :| t in texts;
      var rest := LongerThanAll(texts - {t});
      n := if rest <= |t| then |t| + 1 else rest;
    }
  }

  lemma NewText(texts: set<string>) returns (t: string)
    ensures t !in texts
  {
    var n := LongerThanAll(texts);
    t := seq(n, _ => 'x');
  }

  /** Whatever a request of the role is granted by the first configuration, the second grants. */
  ghost predicate KeepsRole(cfg: RolesConfig, cfg': RolesConfig, role: string) {
    forall request, context :: UserCan(cfg, role, request, context) ==> UserCan(cfg', role, request, context)
  }

  ghost predicate RecordTypesKept(cfg: RolesConfig, cfg': RolesConfig, role: string) {
    forall context :: RecordTypeGrants(cfg, role, context) ==> RecordTypeGrants(cfg', role, context)
  }

  /** A record type is worth any permission, so only the wildcard makes up for one that is lost. */
  lemma KeepsRoleIff(cfg: RolesConfig, cfg': RolesConfig, role: string)
    ensures KeepsRole(cfg, cfg', role) <==>
            "*" in Granted(cfg', role) || (Granted(cfg, role) <= Granted(cfg', role) && RecordTypesKept(cfg, cfg', role))
  {
    if "*" in Granted(cfg', role) || (Granted(cfg, role) <= Granted(cfg', role) && RecordTypesKept(cfg, cfg', role)) {
      forall request, context | UserCan(cfg, role, request, context) ensures UserCan(cfg', role, request, context) {
        UserCanIff(cfg, role, request, context);
        UserCanIff(cfg', role, request, context);
      }
    } else if KeepsRole(cfg, cfg', role) {
      forall p | p in Granted(cfg, role) ensures p in Granted(cfg', role) {
        KeptByName(cfg, cfg', role, p);
      }
      forall context | RecordTypeGrants(cfg, role, context) ensures RecordTypeGrants(cfg', role, context) {
        KeptByRecordType(cfg, cfg', role, context);
      }
    }
  }

  lemma KeptByName(cfg: RolesConfig, cfg': RolesConfig, role: string, p: string)
    requires KeepsRole(cfg, cfg', role) && "*" !in Granted(cfg', role) && p in Granted(cfg, role)
    ensures p in Granted(cfg', role)
  {
    UserCanIff(cfg, role, One(p), NoContext);
    UserCanIff(cfg', role, One(p), NoContext);
    assert UserCan(cfg, role, One(p), NoContext);
  }

  lemma KeptByRecordType(cfg: RolesConfig, cfg': RolesConfig, role: string, context: Context)
    requires KeepsRole(cfg, cfg', role) && "*" !in Granted(cfg', role) && RecordTypeGrants(cfg, role, context)
    ensures RecordTypeGrants(cfg', role, context)
  {
    var p := NewText(Granted(cfg', role));
    UserCanIff(cfg, role, One(p), context);
    UserCanIff(cfg', role, One(p), context);
    assert UserCan(cfg, role, One(p), context);
  }

  function Define(cfg: RolesConfig, role: string, entry: RoleConfig): RolesConfig {
    cfg.(roles := cfg.roles[role := entry])
  }

  /** Defining a role that was not defined denies nobody anything, if and only if the role is now
      granted the wildcard, or both public's list, to which it fell back, and public's record
      types. Defining public itself never denies. */
  lemma DefiningARoleKeepsIff(cfg: RolesConfig, r: string, entry: RoleConfig)
    requires r !in cfg.roles
    ensures var cfg' := Define(cfg, r, entry);
            (forall role :: KeepsRole(cfg, cfg', role)) <==>
            r == "public" || "*" in Granted(cfg', r)
            || (Elements(cfg.Listed("public")) <= Granted(cfg', r) && RecordTypesKept(cfg, cfg', r))
  {
    var cfg' := Define(cfg, r, entry);
    if r == "public" || "*" in Granted(cfg', r)
       || (Elements(cfg.Listed("public")) <= Granted(cfg', r) && RecordTypesKept(cfg, cfg', r)) {
      forall role ensures KeepsRole(cfg, cfg', role) {
        DefinedRoleIsKept(cfg, r, entry, role);
      }
    } else if forall role :: KeepsRole(cfg, cfg', role) {
      assert KeepsRole(cfg, cfg', r);
      KeepsRoleIff(cfg, cfg', r);
      GrantedOwn(cfg, r);
    }
  }

  /** A grant that some role has through the newly defined one comes from public's list. */
  lemma DefinedRoleKeepsGrant(cfg: RolesConfig, r: string, entry: RoleConfig, role: string, p: string)
    requires r !in cfg.roles && p in Granted(cfg, role)
    requires r == "public" || Elements(cfg.Listed("public")) <= Granted(Define(cfg, r, entry), r)
             || "*" in Granted(Define(cfg, r, entry), r)
    ensures p in Granted(Define(cfg, r, entry), role) || "*" in Granted(Define(cfg, r, entry), role)
  {
    var cfg' := Define(cfg, r, entry);
    var x :| x in Reachable(cfg, role) && p in cfg.Direct(x);
    ReachableIsReaches(cfg, role, x);
    SameReaches(cfg, cfg', role, x);
    if x == r && r != "public" {
      GrantedBelow(cfg', role, r);
      assert p in Elements(cfg.Listed("public"));
    } else {
      GrantedHas(cfg', role, x, p);
    }
  }

  lemma DefinedRoleIsKept(cfg: RolesConfig, r: string, entry: RoleConfig, role: string)
    requires r !in cfg.roles
    requires var cfg' := Define(cfg, r, entry);
             r == "public" || "*" in Granted(cfg', r)
             || (Elements(cfg.Listed("public")) <= Granted(cfg', r) && RecordTypesKept(cfg, cfg', r))
    ensures KeepsRole(cfg, Define(cfg, r, entry), role)
  {
    var cfg' := Define(cfg, r, entry);
    KeepsRoleIff(cfg, cfg', role);
    if "*" !in Granted(cfg', role) {
      forall p | p in Granted(cfg, role) ensures p in Granted(cfg', role) {
        DefinedRoleKeepsGrant(cfg, r, entry, role, p);
      }
      ReachesItself(cfg', role);
      assert RecordTypesKept(cfg, cfg', role);
    }
  }

  lemma GrantedBelow(cfg: RolesConfig, role: string, r: string)
    requires Reaches(cfg, role, r)
    ensures Granted(cfg, r) <= Granted(cfg, role)
  {
    forall p | p in Granted(cfg, r) ensures p in Granted(cfg, role) {
      var x :| x in Reachable(cfg, r) && p in cfg.Direct(x);
      ReachableIsReaches(cfg, r, x);
      ReachesCompose(cfg, role, r, x);
      GrantedHas(cfg, role, x, p);
    }
  }

  /** Defining a role without permissions ends its fallback to public. */
  lemma DefiningARoleCanRevoke()
    ensures var cfg := RolesConfig(map["public" := RoleConfig(Plain(["view"]), map[])], map[]);
            var cfg' := Define(cfg, "guest", RoleConfig(Plain([]), map[]));
            UserCan(cfg, "guest", One("view"), NoContext) && !UserCan(cfg', "guest", One("view"), NoContext)
  {
    var cfg := RolesConfig(map["public" := RoleConfig(Plain(["view"]), map[])], map[]);
    var cfg' := Define(cfg, "guest", RoleConfig(Plain([]), map[]));
    assert ResolveAll(cfg, [], {} + {"guest"}, map[], []) == Answer([], map[], 0);
    assert AddAll([], ["view"]) == AddAll(["view"], []) == ["view"];
    assert Resolve(cfg, "guest", {}, map[]).perms == ["view"];
    assert ResolveAll(cfg', [], {} + {"guest"}, map[], []) == Answer([], map[], 0);
    assert Resolve(cfg', "guest", {}, map[]).perms == [];
  }
}
