/** What a walk comes to, told token by token (CommandParser/parser.c:139-182). */
module WalkMeaning {
  import opened CommandTree
  import opened CommandWalk

  /** The place token `i` is looked up at, when the tokens before it led along `trail`. */
  function PlaceOf(cur: Id, trail: seq<Id>, i: nat): Id
    requires i <= |trail|
  {
    if i == 0 then cur else trail[i - 1]
  }

  /** The option of `at` that a token means. */
  ghost predicate Leads(t: Tree, at: Id, token: Token, c: Id) {
    && at < |t| && OptionsInTable(t, at) && c < |t|
    && FindMatch(t, t[at].options, token.text, token.choice) == Found(c)
  }

  ghost predicate Fails(t: Tree, at: Id, token: Token, how: Match) {
    && at < |t| && OptionsInTable(t, at)
    && FindMatch(t, t[at].options, token.text, token.choice) == how
  }

  /** Why a walk goes no further than a token. */
  ghost predicate Stopped(env: Env, at: Id, token: Token, status: Status) {
    match status
    case HALT => Fails(env.tree, at, token, TooMany)
    case CMD_NOT_FOUND => Fails(env.tree, at, token, NotFound)
    case INVALID_LEAF =>
      exists c: Id :: Leads(env.tree, at, token, c) && env.tree[c].kind.Leaf?
               && !env.libValid(env.tree[c].leafType, token.text)
    case USER_INVALID_LEAF =>
      exists c: Id :: Leads(env.tree, at, token, c) && env.tree[c].kind.Leaf?
               && env.libValid(env.tree[c].leafType, token.text) && !env.userValid(c, token.text)
    case _ => false
  }

  /** A token that is taken: it means `c`, and if that is a leaf, both validations accept the word. */
  ghost predicate Taking(env: Env, at: Id, token: Token, c: Id) {
    && Leads(env.tree, at, token, c)
    && (env.tree[c].kind.Leaf? ==> env.libValid(env.tree[c].leafType, token.text) && env.userValid(c, token.text))
  }

  /** ... being looked up where the token before it led to. */
  ghost predicate TakingAt(env: Env, cur: Id, tokens: seq<Token>, trail: seq<Id>, i: nat) {
    i < |trail| <= |tokens| && Taking(env, PlaceOf(cur, trail, i), tokens[i], trail[i])
  }

  /** The first tokens are taken one after the other, and lead along `trail`. */
  ghost predicate Follow(env: Env, cur: Id, tokens: seq<Token>, trail: seq<Id>) {
    |trail| <= |tokens| && forall i: nat | i < |trail| :: TakingAt(env, cur, tokens, trail, i)
  }

  /** `leaves` are the leaves of the trail, those at the positions `at`, each with its word. */
  ghost predicate LeavesOf(t: Tree, tokens: seq<Token>, trail: seq<Id>, at: seq<nat>, leaves: seq<(Id, string)>)
    requires |trail| <= |tokens|
  {
    Pairs(tokens, trail, at, leaves) && Increasing(at) && PicksLeaves(t, trail, at)
  }

  ghost predicate Pairs(tokens: seq<Token>, trail: seq<Id>, at: seq<nat>, leaves: seq<(Id, string)>)
    requires |trail| <= |tokens|
  {
    && |at| == |leaves|
    && forall i | 0 <= i < |at| :: at[i] < |trail| && leaves[i] == (trail[at[i]], tokens[at[i]].text)
  }

  predicate Increasing(at: seq<nat>) {
    forall i, j | 0 <= i < j < |at| :: at[i] < at[j]
  }

  /** `at` are exactly the positions of leaves. */
  predicate PicksLeaves(t: Tree, trail: seq<Id>, at: seq<nat>) {
    forall k: nat | k < |trail| :: trail[k] < |t| && (t[trail[k]].kind.Leaf? <==> k in at)
  }

  /** There is a `no` on the trail. */
  ghost predicate Passed(t: Tree, trail: seq<Id>) {
    exists i | 0 <= i < |trail| :: trail[i] < |t| && t[trail[i]].kind.NoCmd?
  }

  function Shift(at: seq<nat>): seq<nat> {
    seq(|at|, i requires 0 <= i < |at| => at[i] + 1)
  }

  lemma FollowStep(env: Env, cur: Id, tokens: seq<Token>, c: Id, rest: seq<Id>)
    requires tokens != [] && Taking(env, cur, tokens[0], c) && Follow(env, c, tokens[1..], rest)
    ensures Follow(env, cur, tokens, [c] + rest)
  {
    var trail := [c] + rest;
    assert |trail| <= |tokens|;
    forall i: nat | i < |trail|
      ensures TakingAt(env, cur, tokens, trail, i)
    {
      if i > 0 {
        assert TakingAt(env, c, tokens[1..], rest, i - 1);
        assert PlaceOf(cur, trail, i) == PlaceOf(c, rest, i - 1);
      }
    }
  }

  lemma PicksStep(t: Tree, c: Id, rest: seq<Id>, at: seq<nat>)
    requires c < |t| && PicksLeaves(t, rest, at)
    ensures PicksLeaves(t, [c] + rest, (if t[c].kind.Leaf? then [0] else []) + Shift(at))
  {
    var trail, own := [c] + rest, if t[c].kind.Leaf? then [0] else [];
    var all := own + Shift(at);
    forall k: nat | k < |trail|
      ensures trail[k] < |t| && (t[trail[k]].kind.Leaf? <==> k in all)
    {
      ShiftMeans(at, k);
      assert k in all <==> k in own || k in Shift(at);
      if k > 0 {
        assert trail[k] == rest[k - 1];
      }
    }
  }

  lemma ShiftMeans(at: seq<nat>, k: nat)
    ensures k in Shift(at) <==> k > 0 && k - 1 in at
  {
    if k > 0 && k - 1 in at {
      var i :| 0 <= i < |at| && at[i] == k - 1;
      assert Shift(at)[i] == k;
    }
  }

  lemma PairsShift(tokens: seq<Token>, c: Id, rest: seq<Id>, at: seq<nat>, leaves: seq<(Id, string)>)
    requires tokens != [] && |rest| <= |tokens[1..]| && Pairs(tokens[1..], rest, at, leaves) && Increasing(at)
    ensures Pairs(tokens, [c] + rest, Shift(at), leaves) && Increasing(Shift(at))
  {}

  lemma PairsStep(tokens: seq<Token>, c: Id, rest: seq<Id>, at: seq<nat>, leaves: seq<(Id, string)>)
    requires tokens != [] && |rest| <= |tokens[1..]| && Pairs(tokens[1..], rest, at, leaves) && Increasing(at)
    ensures Pairs(tokens, [c] + rest, [0] + Shift(at), [(c, tokens[0].text)] + leaves)
    ensures Increasing([0] + Shift(at))
  {
    PairsShift(tokens, c, rest, at, leaves);
  }

  lemma LeavesStep(t: Tree, tokens: seq<Token>, c: Id, rest: seq<Id>, at: seq<nat>, leaves: seq<(Id, string)>)
    requires tokens != [] && c < |t| && |rest| <= |tokens[1..]| && LeavesOf(t, tokens[1..], rest, at, leaves)
    ensures LeavesOf(t, tokens, [c] + rest, (if t[c].kind.Leaf? then [0] else []) + Shift(at),
                     Taken(t, c, tokens[0].text) + leaves)
  {
    PicksStep(t, c, rest, at);
    if t[c].kind.Leaf? {
      PairsStep(tokens, c, rest, at, leaves);
    } else {
      PairsShift(tokens, c, rest, at, leaves);
      assert [] + leaves == leaves && [] + Shift(at) == Shift(at);
    }
  }

  lemma PassedStep(t: Tree, c: Id, rest: seq<Id>)
    requires c < |t|
    ensures Passed(t, [c] + rest) <==> t[c].kind.NoCmd? || Passed(t, rest)
  {
    var trail := [c] + rest;
    if t[c].kind.NoCmd? {
      assert trail[0] == c;
    }
    if Passed(t, rest) {
      var i :| 0 <= i < |rest| && rest[i] < |t| && t[rest[i]].kind.NoCmd?;
      assert trail[i + 1] == rest[i];
    }
  }

  /** One token, by the rule of the walk. */
  lemma StepMeans(env: Env, cur: Id, parent: Id, tokens: seq<Token>)
    requires EnvOk(env) && cur < |env.tree| && tokens != []
    ensures var w, m := Walk(env, cur, parent, tokens), MatchAt(env.tree, cur, tokens[0]);
            && OptionsInTable(env.tree, cur)
            && (if m.Found? && m.param < |env.tree| && Taking(env, cur, tokens[0], m.param) then
                  w == Prepend(Taken(env.tree, m.param, tokens[0].text), env.tree[m.param].kind.NoCmd?,
                               Walk(env, m.param, cur, tokens[1..]))
                else
                  && Stopped(env, cur, tokens[0], w.status) && w.leaves == [] && !w.negated)
  {
    WalkStep(env, cur, parent, tokens);
    OptionsAreInTable(env.tree, cur);
    var m := MatchAt(env.tree, cur, tokens[0]);
    if m.Found? {
      assert Leads(env.tree, cur, tokens[0], m.param);
      var rest := Walk(env, m.param, cur, tokens[1..]);
      assert [] + rest.leaves == rest.leaves;
    }
  }

  /** The params `trail` the first tokens lead to, one per token, and the positions `at` of the leaves among them. */
  ghost predicate Told(env: Env, cur: Id, parent: Id, tokens: seq<Token>, w: Walked, trail: seq<Id>, at: seq<nat>) {
    && Follow(env, cur, tokens, trail)
    && (|trail| < |tokens| ==> Stopped(env, PlaceOf(cur, trail, |trail|), tokens[|trail|], w.status))
    && (|trail| == |tokens| ==>
          && w.status == COMPLETE && w.param == PlaceOf(cur, trail, |trail|)
          && w.parent == if trail == [] then parent else PlaceOf(cur, trail, |trail| - 1))
    && LeavesOf(env.tree, tokens, trail, at, w.leaves)
    && (w.negated <==> Passed(env.tree, trail))
  }

  lemma ToldStep(env: Env, cur: Id, parent: Id, tokens: seq<Token>, c: Id, rest: Walked, trail: seq<Id>, at: seq<nat>)
    requires tokens != [] && Taking(env, cur, tokens[0], c)
    requires Told(env, c, cur, tokens[1..], rest, trail, at)
    ensures Told(env, cur, parent, tokens,
                 Prepend(Taken(env.tree, c, tokens[0].text), env.tree[c].kind.NoCmd?, rest), [c] + trail,
                 (if env.tree[c].kind.Leaf? then [0] else []) + Shift(at))
  {
    FollowStep(env, cur, tokens, c, trail);
    LeavesStep(env.tree, tokens, c, trail, at, rest.leaves);
    PassedStep(env.tree, c, trail);
    var all := [c] + trail;
    assert PlaceOf(cur, all, |all|) == PlaceOf(c, trail, |trail|);
    if |trail| < |tokens[1..]| {
      assert tokens[1..][|trail|] == tokens[|all|];
    } else if trail != [] {
      assert PlaceOf(cur, all, |all| - 1) == PlaceOf(c, trail, |trail| - 1);
    }
  }

  lemma {:induction false} WalkIsTold(env: Env, cur: Id, parent: Id, tokens: seq<Token>)
    returns (trail: seq<Id>, at: seq<nat>)
    requires EnvOk(env) && cur < |env.tree|
    ensures Told(env, cur, parent, tokens, Walk(env, cur, parent, tokens), trail, at)
    decreases |tokens|
  {
    trail, at := [], [];
    if tokens != [] {
      StepMeans(env, cur, parent, tokens);
      var m := MatchAt(env.tree, cur, tokens[0]);
      if m.Found? && m.param < |env.tree| && Taking(env, cur, tokens[0], m.param) {
        trail, at := WalkIsTold(env, m.param, cur, tokens[1..]);
        ToldStep(env, cur, parent, tokens, m.param, Walk(env, m.param, cur, tokens[1..]), trail, at);
        at := (if env.tree[m.param].kind.Leaf? then [0] else []) + Shift(at);
        trail := [m.param] + trail;
      }
    }
  }

  /** A walk, in full. Token by token it follows `trail`, each token being matched among the options of the place
      the one before it led to, and every leaf on the trail has passed both validations. It is complete when the
      trail has a param for every token, and negated when there is a `no` among them. */
  lemma WalkMeans(env: Env, cur: Id, parent: Id, tokens: seq<Token>) returns (trail: seq<Id>)
    requires EnvOk(env) && cur < |env.tree|
    ensures Follow(env, cur, tokens, trail)
    ensures var w := Walk(env, cur, parent, tokens);
            && (w.status == COMPLETE <==> |trail| == |tokens|)
            && (w.negated <==> Passed(env.tree, trail))
            && (|trail| == |tokens| > 0 ==>
                  w.param == trail[|trail| - 1] && w.parent == PlaceOf(cur, trail, |trail| - 1))
            && (|trail| < |tokens| ==>
                  StoppedFor(env, PlaceOf(cur, trail, |trail|), tokens[|trail|], w.status))
  {
    var at;
    trail, at := WalkIsTold(env, cur, parent, tokens);
    if |trail| < |tokens| {
      var status := Walk(env, cur, parent, tokens).status;
      StoppedMeans(env, PlaceOf(cur, trail, |trail|), tokens[|trail|], status);
    }
  }

  /** The status is decided by the test the token fails: no match, too many candidates, the library's validation of
      a leaf's type, or the application's own. */
  ghost predicate StoppedFor(env: Env, at: Id, token: Token, status: Status) {
    && at < |env.tree| && OptionsInTable(env.tree, at)
    && var m := FindMatch(env.tree, env.tree[at].options, token.text, token.choice);
       && (status == HALT <==> m.TooMany?)
       && (status == CMD_NOT_FOUND <==> m.NotFound?)
       && (m.Found? ==>
             && m.param < |env.tree| && env.tree[m.param].kind.Leaf?
             && (status == INVALID_LEAF <==> !env.libValid(env.tree[m.param].leafType, token.text))
             && (status == USER_INVALID_LEAF <==> env.libValid(env.tree[m.param].leafType, token.text))
             && (status == USER_INVALID_LEAF ==> !env.userValid(m.param, token.text)))
  }

  lemma StoppedMeans(env: Env, at: Id, token: Token, status: Status)
    requires Stopped(env, at, token, status)
    ensures StoppedFor(env, at, token, status)
  {}

  /** No value is taken that a validation rejects. */
  lemma TakenValuesAreValid(env: Env, cur: Id, parent: Id, tokens: seq<Token>)
    requires EnvOk(env) && cur < |env.tree|
    ensures forall leaf | leaf in Walk(env, cur, parent, tokens).leaves ::
              && leaf.0 < |env.tree| && env.tree[leaf.0].kind.Leaf?
              && env.libValid(env.tree[leaf.0].leafType, leaf.1) && env.userValid(leaf.0, leaf.1)
  {
    var trail, at := WalkIsTold(env, cur, parent, tokens);
    var leaves := Walk(env, cur, parent, tokens).leaves;
    forall i | 0 <= i < |leaves|
      ensures TakingAt(env, cur, tokens, trail, at[i])
      ensures env.tree[trail[at[i]]].kind.Leaf?
    {
      assert at[i] in at;
    }
  }

  /** The values taken are words of the line, in order: those of exactly the leaves on the trail. */
  lemma TakenValuesAreTyped(env: Env, cur: Id, parent: Id, tokens: seq<Token>)
    returns (trail: seq<Id>, at: seq<nat>)
    requires EnvOk(env) && cur < |env.tree|
    ensures Follow(env, cur, tokens, trail)
    ensures var leaves := Walk(env, cur, parent, tokens).leaves;
            && |at| == |leaves|
            && (forall i | 0 <= i < |at| :: at[i] < |trail| && leaves[i] == (trail[at[i]], tokens[at[i]].text))
            && Increasing(at) && PicksLeaves(env.tree, trail, at)
  {
    trail, at := WalkIsTold(env, cur, parent, tokens);
  }

  // ---- records ----

  /** Record by record, what is collected for a walk's leaves: type and name of the leaf, and the word. */
  lemma {:induction false} RecordsAre(t: Tree, leaves: seq<(Id, string)>)
    requires LeavesOk(t, leaves)
    ensures |LeafTlvs(t, leaves)| == |leaves|
    ensures forall i | 0 <= i < |leaves| ::
              LeafTlvs(t, leaves)[i] == Tlv(t[leaves[i].0].leafType, t[leaves[i].0].name, leaves[i].1)
    decreases |leaves|
  {
    if leaves != [] {
      RecordsAre(t, leaves[1..]);
      assert forall i | 0 < i < |leaves| :: LeafTlvs(t, leaves)[i] == LeafTlvs(t, leaves[1..])[i - 1];
    }
  }

  /** The leaves of `n`'s path: its ancestors that are leaves, each of them once, in order from the root. */
  ghost predicate PathLeaves(t: Tree, n: Id, path: seq<Id>)
    requires n < |t|
  {
    && (forall i, j | 0 <= i < j < |path| :: path[i] < path[j])
    && (forall x: Id :: x in path <==> CONFIG <= x <= n && IsAncestor(t, x, n) && t[x].kind.Leaf?)
  }

  ghost predicate RecordsOf(t: Tree, values: Values, path: seq<Id>, tlvs: seq<Tlv>) {
    && |tlvs| == |path|
    && forall i | 0 <= i < |path| ::
         path[i] < |t| && tlvs[i] == Tlv(t[path[i]].leafType, t[path[i]].name, ValueOf(values, path[i]))
  }

  lemma PathLeavesStep(t: Tree, n: Id, path: seq<Id>)
    requires CONFIG <= n < |t| && t[n].parent < n && PathLeaves(t, t[n].parent, path)
    ensures PathLeaves(t, n, path + if t[n].kind.Leaf? then [n] else [])
  {
    var own := if t[n].kind.Leaf? then [n] else [];
    forall i | 0 <= i < |path|
      ensures path[i] < n
    {
      var x := path[i];
      assert x in path;
    }
    forall x: Id
      ensures x in path + own <==> CONFIG <= x <= n && IsAncestor(t, x, n) && t[x].kind.Leaf?
    {
      assert x in path + own <==> x in path || x in own;
      assert IsAncestor(t, x, n) <==> x == n || IsAncestor(t, x, t[n].parent);
      if x < n && IsAncestor(t, x, t[n].parent) {
        AncestorIsEarlier(t, x, t[n].parent);
      }
    }
  }

  /** Record by record, the reference for the buffer: one for each leaf among the ancestors of `n`, in order from
      the root, with the leaf's type, its name and what its value holder has. */
  lemma {:induction false} PathRecords(t: Tree, values: Values, n: Id) returns (path: seq<Id>)
    requires WellFormed(t) && InTree(t, n)
    ensures forall i, j | 0 <= i < j < |path| :: path[i] < path[j]
    ensures forall x: Id :: x in path <==> CONFIG <= x <= n && IsAncestor(t, x, n) && t[x].kind.Leaf?
    ensures |PathTlvs(t, values, n)| == |path|
    ensures forall i | 0 <= i < |path| ::
              && path[i] < |t|
              && PathTlvs(t, values, n)[i] == Tlv(t[path[i]].leafType, t[path[i]].name,
                                                  if path[i] in values then values[path[i]] else "")
    decreases n
  {
    path := [];
    if n != ROOT {
      assert ParentOk(t, n);
      path := PathRecords(t, values, t[n].parent);
      PathLeavesStep(t, n, path);
      assert RecordsOf(t, values, path, PathTlvs(t, values, t[n].parent));
      path := path + if t[n].kind.Leaf? then [n] else [];
    }
  }

  // ---- value holders ----

  /** Leaves come further and further down the tree, so that no value is overwritten. */
  predicate Descending(leaves: seq<(Id, string)>) {
    forall i, j | 0 <= i < j < |leaves| :: leaves[i].0 < leaves[j].0
  }

  lemma DescendStep(env: Env, cur: Id, c: Id, text: string, rest: Walked, b: Id)
    requires EnvOk(env) && CONFIG <= c < |env.tree| && Descending(rest.leaves)
    requires Confined(env.tree, Anchor(env.tree, c), b, rest)
    ensures Descending(AfterStep(env, cur, c, text, rest).leaves)
  {}

  lemma {:induction false} WalkDescends(env: Env, cur: Id, parent: Id, tokens: seq<Token>)
    requires EnvOk(env) && OnTree(env.tree, cur)
    ensures Descending(Walk(env, cur, parent, tokens).leaves)
    decreases |tokens|
  {
    if tokens != [] {
      WalkStep(env, cur, parent, tokens);
      var m := MatchAt(env.tree, cur, tokens[0]);
      if m.Found? {
        var c := m.param;
        StepOnTree(env.tree, cur, tokens[0]);
        if c < CONFIG {
          CapabilityEndsWalk(env, c, cur, tokens[1..]);
        } else {
          WalkDescends(env, c, cur, tokens[1..]);
          WalkInBranch(env, c, cur, tokens[1..]);
          DescendStep(env, cur, c, tokens[0].text, Walk(env, c, cur, tokens[1..]), Branch(env.tree, c));
        }
      }
    }
  }

  lemma {:induction false} StoreMeans(values: Values, leaves: seq<(Id, string)>)
    requires Descending(leaves)
    ensures forall i | 0 <= i < |leaves| :: ValueOf(Store(values, leaves), leaves[i].0) == leaves[i].1
    ensures forall n: Id | forall i | 0 <= i < |leaves| :: leaves[i].0 != n ::
              ValueOf(Store(values, leaves), n) == ValueOf(values, n)
    decreases |leaves|
  {
    if leaves != [] {
      var stored := values[leaves[0].0 := leaves[0].1];
      StoreMeans(stored, leaves[1..]);
      StoreElsewhere(stored, leaves[1..], leaves[0].0);
      forall i | 0 < i < |leaves|
        ensures ValueOf(Store(values, leaves), leaves[i].0) == leaves[i].1
      {
        assert leaves[1..][i - 1] == leaves[i];
      }
      forall n: Id | forall i | 0 <= i < |leaves| :: leaves[i].0 != n
        ensures ValueOf(Store(values, leaves), n) == ValueOf(values, n)
      {
        StoreElsewhere(values, leaves, n);
      }
    }
  }

  /** Every value holder after a walk: a leaf on the way holds the word typed for it, all others what they held. */
  lemma HoldersAfterWalk(env: Env, values: Values, cur: Id, parent: Id, tokens: seq<Token>)
    requires EnvOk(env) && OnTree(env.tree, cur)
    ensures var leaves := Walk(env, cur, parent, tokens).leaves;
            && (forall i | 0 <= i < |leaves| :: ValueOf(Store(values, leaves), leaves[i].0) == leaves[i].1)
            && forall n: Id | forall i | 0 <= i < |leaves| :: leaves[i].0 != n ::
                 ValueOf(Store(values, leaves), n) == ValueOf(values, n)
  {
    WalkDescends(env, cur, parent, tokens);
    StoreMeans(values, Walk(env, cur, parent, tokens).leaves);
  }
}
