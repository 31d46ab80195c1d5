/** Walking a command line down the tree (build_tlv_buffer's loop, CommandParser/parser.c). */
module CommandWalk {
  import opened CommandTree
  import opened Sequences

  /** A word of the command line, and the user's answer should the parser have to ask which of several
      commands it abbreviates. */
  datatype Token = Token(text: string, choice: int)

  /** The tree and the validation callbacks the application registered for its leaves. `stray` is what a `no`
      reads like when it is mistaken for a leaf: whatever lies behind its name in memory. */
  datatype Env = Env(
    tree: Tree, libValid: (LeafType, string) -> bool, userValid: (Id, string) -> bool, stray: Id -> Tlv)

  ghost predicate EnvOk(env: Env) {
    WellFormed(env.tree)
  }

  /** How the loop over the tokens ends. `Halt` is a failed assertion, which ends the process. */
  datatype Status =
    | COMPLETE | INVALID_LEAF | USER_INVALID_LEAF | CMD_NOT_FOUND | INCOMPLETE_COMMAND | HALT

  /** The param reached, the one before it, the leaf values taken on the way, and whether a `no` was passed. */
  datatype Walked = Walked(status: Status, param: Id, parent: Id, leaves: seq<(Id, string)>, negated: bool)

  predicate OptionsInTable(t: Tree, n: Id)
    requires n < |t|
  {
    forall i | 0 <= i < |t[n].options| :: t[n].options[i] < |t|
  }

  lemma OptionsAreInTable(t: Tree, n: Id)
    requires WellFormed(t) && n < |t|
    ensures OptionsInTable(t, n)
  {
    assert n == ROOT || n >= DO_HOOK ==> OptionsOk(t, n);
  }

  ghost function MatchAt(t: Tree, n: Id, token: Token): Match
    requires WellFormed(t) && n < |t|
  {
    OptionsAreInTable(t, n);
    FindMatch(t, t[n].options, token.text, token.choice)
  }

  lemma MatchIsInTable(t: Tree, n: Id, token: Token)
    requires WellFormed(t) && n < |t| && MatchAt(t, n, token).Found?
    ensures var c := MatchAt(t, n, token).param;
            c < |t| && c in t[n].options && (t[c].kind.Leaf? || token.text <= t[c].name)
  {
    OptionsAreInTable(t, n);
    FoundIsAnOption(t, t[n].options, token.text, token.choice);
  }

  /** The whole loop, from `cur` (reached from `parent`) on. */
  ghost function Walk(env: Env, cur: Id, parent: Id, tokens: seq<Token>): Walked
    requires EnvOk(env) && cur < |env.tree|
    decreases |tokens|
  {
    var t := env.tree;
    if tokens == [] then Walked(COMPLETE, cur, parent, [], false)
    else match MatchAt(t, cur, tokens[0])
      case TooMany => Walked(HALT, cur, cur, [], false)
      case NotFound => Walked(CMD_NOT_FOUND, cur, cur, [], false)
      case Found(c) =>
        MatchIsInTable(t, cur, tokens[0]);
        if !t[c].kind.Leaf? then
          var w := Walk(env, c, cur, tokens[1..]);
          w.(negated := w.negated || t[c].kind.NoCmd?)
        else if !env.libValid(t[c].leafType, tokens[0].text) then Walked(INVALID_LEAF, c, cur, [], false)
        else if !env.userValid(c, tokens[0].text) then Walked(USER_INVALID_LEAF, c, cur, [], false)
        else
          var w := Walk(env, c, cur, tokens[1..]);
          w.(leaves := [(c, tokens[0].text)] + w.leaves)
  }

  /** The TLVs collected for leaves, in order. */
  function LeafTlvs(t: Tree, leaves: seq<(Id, string)>): seq<Tlv>
    requires forall i | 0 <= i < |leaves| :: leaves[i].0 < |t|
  {
    if leaves == [] then [] else [LeafTlv(t, leaves[0].0, leaves[0].1)] + LeafTlvs(t, leaves[1..])
  }

  /** Writing leaf values into their holders, in order. */
  function Store(values: Values, leaves: seq<(Id, string)>): Values
    decreases |leaves|
  {
    if leaves == [] then values else Store(values[leaves[0].0 := leaves[0].1], leaves[1..])
  }

  ghost predicate LeavesOk(t: Tree, leaves: seq<(Id, string)>) {
    forall i | 0 <= i < |leaves| :: CONFIG <= leaves[i].0 < |t| && t[leaves[i].0].kind.Leaf?
  }

  lemma {:induction false} LeafTlvsAppend(t: Tree, a: seq<(Id, string)>, b: seq<(Id, string)>)
    requires LeavesOk(t, a) && LeavesOk(t, b)
    ensures LeafTlvs(t, a + b) == LeafTlvs(t, a) + LeafTlvs(t, b)
    decreases |a|
  {
    if a == [] {
      assert a + b == b;
    } else {
      assert (a + b)[1..] == a[1..] + b;
      LeafTlvsAppend(t, a[1..], b);
    }
  }

  lemma {:induction false} StoreAppend(values: Values, a: seq<(Id, string)>, b: seq<(Id, string)>)
    ensures Store(values, a + b) == Store(Store(values, a), b)
    decreases |a|
  {
    if a == [] {
      assert a + b == b;
    } else {
      assert (a + b)[1..] == a[1..] + b;
      StoreAppend(values[a[0].0 := a[0].1], a[1..], b);
    }
  }

  lemma {:induction false} StoreElsewhere(values: Values, leaves: seq<(Id, string)>, n: Id)
    requires forall i | 0 <= i < |leaves| :: leaves[i].0 != n
    ensures ValueOf(Store(values, leaves), n) == ValueOf(values, n)
    decreases |leaves|
  {
    if leaves != [] {
      StoreElsewhere(values[leaves[0].0 := leaves[0].1], leaves[1..], n);
    }
  }

  function Prepend(leaves: seq<(Id, string)>, negated: bool, w: Walked): Walked {
    w.(leaves := leaves + w.leaves, negated := negated || w.negated)
  }

  /** What one matched token does to a walk. */
  ghost function AfterStep(env: Env, cur: Id, c: Id, text: string, rest: Walked): Walked
    requires c < |env.tree|
  {
    var p := env.tree[c];
    if !p.kind.Leaf? then rest.(negated := rest.negated || p.kind.NoCmd?)
    else if !env.libValid(p.leafType, text) then Walked(INVALID_LEAF, c, cur, [], false)
    else if !env.userValid(c, text) then Walked(USER_INVALID_LEAF, c, cur, [], false)
    else rest.(leaves := [(c, text)] + rest.leaves)
  }

  lemma WalkStep(env: Env, cur: Id, parent: Id, tokens: seq<Token>)
    requires EnvOk(env) && cur < |env.tree| && tokens != []
    ensures var m := MatchAt(env.tree, cur, tokens[0]);
            && (m.Found? ==>
                  && m.param < |env.tree|
                  && Walk(env, cur, parent, tokens)
                  == AfterStep(env, cur, m.param, tokens[0].text, Walk(env, m.param, cur, tokens[1..])))
            && (!m.Found? ==>
                  Walk(env, cur, parent, tokens)
                  == Walked(if m.TooMany? then HALT else CMD_NOT_FOUND, cur, cur, [], false))
  {
    if MatchAt(env.tree, cur, tokens[0]).Found? {
      MatchIsInTable(env.tree, cur, tokens[0]);
    }
  }

  /** A matched token in front of a walk that goes on with another. */
  lemma StepBefore(env: Env, cur: Id, c: Id, text: string, w: Walked, rest: Walked)
    requires c < |env.tree| && w.status == COMPLETE
    ensures var first := AfterStep(env, cur, c, text, w);
            var all := AfterStep(env, cur, c, text, Prepend(w.leaves, w.negated, rest));
            if first.status == COMPLETE then
              && all == Prepend(first.leaves, first.negated, rest)
              && first.param == w.param && first.parent == w.parent
            else all.status == first.status && first.param == c
  {
    Associate([(c, text)], w.leaves, rest.leaves);
  }

  /** ... and in front of one that has failed. */
  lemma StepBeforeFailure(env: Env, cur: Id, c: Id, text: string, w: Walked, v: Walked)
    requires c < |env.tree| && w.status != COMPLETE && v.status == w.status && w.param < |env.tree|
    ensures var first := AfterStep(env, cur, c, text, w);
            && first.status != COMPLETE && AfterStep(env, cur, c, text, v).status == first.status
            && first.param < |env.tree|
  {}

  /** A command line typed in one piece walks as its two halves do, one after the other. */
  lemma {:induction false} WalkAppend(env: Env, cur: Id, parent: Id, p: seq<Token>, q: seq<Token>)
    requires EnvOk(env) && cur < |env.tree|
    ensures var w := Walk(env, cur, parent, p);
            && w.param < |env.tree|
            && (w.status == COMPLETE ==>
                  Walk(env, cur, parent, p + q) == Prepend(w.leaves, w.negated, Walk(env, w.param, w.parent, q)))
            && (w.status != COMPLETE ==>
                  Walk(env, cur, parent, p + q).status == w.status)
    decreases |p|
  {
    if p == [] {
      assert p + q == q;
      var w := Walk(env, cur, parent, q);
      assert [] + w.leaves == w.leaves;
    } else {
      assert (p + q)[1..] == p[1..] + q && (p + q)[0] == p[0];
      WalkStep(env, cur, parent, p);
      WalkStep(env, cur, parent, p + q);
      var m := MatchAt(env.tree, cur, p[0]);
      if m.Found? {
        WalkAppend(env, m.param, cur, p[1..], q);
        var w := Walk(env, m.param, cur, p[1..]);
        if w.status == COMPLETE {
          StepBefore(env, cur, m.param, p[0].text, w, Walk(env, w.param, w.parent, q));
        } else {
          StepBeforeFailure(env, cur, m.param, p[0].text, w, Walk(env, m.param, cur, p[1..] + q));
        }
      }
    }
  }

  /** The last place of a walk that is a param of the tree: a capability is looked at from its parent. */
  function EndOf(w: Walked): Id {
    if w.param < DO_HOOK && w.param != ROOT then w.parent else w.param
  }

  predicate OnTree(t: Tree, n: Id) {
    InTree(t, n) || (n == DO_HOOK && n < |t|)
  }

  lemma AnchorPath(t: Tree, values: Values, n: Id)
    requires WellFormed(t) && OnTree(t, n)
    ensures InTree(t, Anchor(t, n))
    ensures PathTlvs(t, values, n) == PathTlvs(t, values, Anchor(t, n))
  {
    if n >= CONFIG {
      assert ParentOk(t, n);
      if t[n].kind.NoCmd? {
        assert PathTlvs(t, values, n) == PathTlvs(t, values, t[n].parent) + [];
      }
    }
  }

  /** Which params a matched token can lead to. */
  lemma StepOnTree(t: Tree, n: Id, token: Token)
    requires WellFormed(t) && OnTree(t, n) && MatchAt(t, n, token).Found?
    ensures var c := MatchAt(t, n, token).param;
            && 0 < c < |t| && c != DO_HOOK && c in t[n].options
            && (c < DO_HOOK ==> !t[c].kind.Leaf? && t[c].options == [])
            && (c >= CONFIG ==> t[c].parent == Anchor(t, n) && Anchor(t, n) < c)
  {
    MatchIsInTable(t, n, token);
    var c := MatchAt(t, n, token).param;
    assert OptionsOk(t, n);
    if c >= CONFIG {
      ChildBranch(t, n, c);
    }
  }

  /** Leaves strictly below `n`, all in branch `b`. */
  ghost predicate LeavesBelow(t: Tree, n: Id, b: Id, leaves: seq<(Id, string)>) {
    forall i | 0 <= i < |leaves| :: n < leaves[i].0 && Branch(t, leaves[i].0) == b
  }

  lemma ParamBranch(t: Tree, n: Id)
    requires WellFormed(t) && CONFIG <= n < |t|
    ensures InTree(t, Anchor(t, n)) && Anchor(t, n) != ROOT && Branch(t, Anchor(t, n)) == Branch(t, n)
    ensures t[n].kind.NoCmd? ==> Branch(t, n) == CONFIG
  {
    assert ParentOk(t, n) && NegationOk(t, n);
    BranchStep(t, n);
  }

  /** A walk that keeps to branch `b`, writes leaves strictly below `n` only, and passes a `no` in the config
      branch only. */
  ghost predicate Confined(t: Tree, n: Id, b: Id, w: Walked) {
    && LeavesOk(t, w.leaves)
    && LeavesBelow(t, n, b, w.leaves)
    && (w.status == COMPLETE ==> CONFIG <= EndOf(w) < |t| && Branch(t, EndOf(w)) == b)
    && (w.negated ==> b == CONFIG)
  }

  lemma ConfinedStep(env: Env, cur: Id, c: Id, text: string, n: Id, rest: Walked)
    requires EnvOk(env) && CONFIG <= c < |env.tree| && env.tree[c].parent == n < c
    requires Confined(env.tree, Anchor(env.tree, c), Branch(env.tree, c), rest)
    ensures Confined(env.tree, n, Branch(env.tree, c), AfterStep(env, cur, c, text, rest))
  {
    ParamBranch(env.tree, c);
  }

  lemma CapabilityIsConfined(env: Env, cur: Id, c: Id, text: string, tokens: seq<Token>)
    requires EnvOk(env) && CONFIG <= cur < |env.tree| && 0 < c < DO_HOOK
    ensures Confined(env.tree, Anchor(env.tree, cur), Branch(env.tree, cur),
                     AfterStep(env, cur, c, text, Walk(env, c, cur, tokens)))
  {
    CapabilityEndsWalk(env, c, cur, tokens);
  }

  /** A walk that starts inside a branch is confined to it. */
  lemma {:induction false} WalkInBranch(env: Env, cur: Id, parent: Id, tokens: seq<Token>)
    requires EnvOk(env) && CONFIG <= cur < |env.tree|
    ensures Confined(env.tree, Anchor(env.tree, cur), Branch(env.tree, cur), Walk(env, cur, parent, tokens))
    decreases |tokens|
  {
    var t := env.tree;
    if tokens != [] {
      WalkStep(env, cur, parent, tokens);
      if MatchAt(t, cur, tokens[0]).Found? {
        var c := MatchAt(t, cur, tokens[0]).param;
        StepOnTree(t, cur, tokens[0]);
        if c >= CONFIG {
          ParamBranch(t, cur);
          ChildBranch(t, cur, c);
          WalkInBranch(env, c, cur, tokens[1..]);
          ConfinedStep(env, cur, c, tokens[0].text, Anchor(t, cur), Walk(env, c, cur, tokens[1..]));
        } else {
          CapabilityIsConfined(env, cur, c, tokens[0].text, tokens[1..]);
        }
      }
    }
  }

  lemma DoHookChildren(t: Tree, c: Id)
    requires WellFormed(t) && c in t[DO_HOOK].options && c >= CONFIG
    ensures c in {SHOW, DEBUG, CLEAR}
  {}

  /** A walk that ends where it starts, or at a capability of that place. */
  ghost predicate AtOnce(cur: Id, w: Walked) {
    w.leaves == [] && !w.negated && (w.status == COMPLETE ==> EndOf(w) == cur && 0 < w.param < DO_HOOK)
  }

  ghost predicate FromTop(t: Tree, cur: Id, b: Id, w: Walked) {
    Confined(t, ROOT, b, w) || AtOnce(cur, w)
  }

  /** A walk from the root or the do-hook is confined to the branch of its first command, unless it ends at a
      capability of its start. */
  lemma WalkFromTop(env: Env, cur: Id, parent: Id, tokens: seq<Token>) returns (b: Id)
    requires EnvOk(env) && (cur == ROOT || cur == DO_HOOK) && tokens != []
    ensures FromTop(env.tree, cur, b, Walk(env, cur, parent, tokens))
    ensures cur == DO_HOOK ==> b in {SHOW, DEBUG, CLEAR}
    ensures b == REPEAT ==> tokens[0].text <= "repeat"
  {
    var t := env.tree;
    b := SHOW;
    WalkStep(env, cur, parent, tokens);
    if MatchAt(t, cur, tokens[0]).Found? {
      var c := MatchAt(t, cur, tokens[0]).param;
      StepOnTree(t, cur, tokens[0]);
      if c >= CONFIG {
        b := c;
        if cur == DO_HOOK {
          DoHookChildren(t, c);
        }
        MatchIsInTable(t, cur, tokens[0]);
        ZeroLevelStep(env, cur, c, tokens);
      } else {
        CapabilityStep(env, cur, c, tokens);
      }
    } else {
      assert AtOnce(cur, Walk(env, cur, parent, tokens));
    }
  }

  lemma ZeroLevelStep(env: Env, cur: Id, c: Id, tokens: seq<Token>)
    requires EnvOk(env) && (cur == ROOT || cur == DO_HOOK) && tokens != []
    requires CONFIG <= c < |env.tree| && c in env.tree[cur].options
    ensures Confined(env.tree, ROOT, c, AfterStep(env, cur, c, tokens[0].text, Walk(env, c, cur, tokens[1..])))
  {
    ChildBranch(env.tree, cur, c);
    WalkInBranch(env, c, cur, tokens[1..]);
    ConfinedStep(env, cur, c, tokens[0].text, ROOT, Walk(env, c, cur, tokens[1..]));
  }

  lemma CapabilityStep(env: Env, cur: Id, c: Id, tokens: seq<Token>)
    requires EnvOk(env) && 0 < c < DO_HOOK && tokens != []
    ensures AtOnce(cur, AfterStep(env, cur, c, tokens[0].text, Walk(env, c, cur, tokens[1..])))
  {
    CapabilityEndsWalk(env, c, cur, tokens[1..]);
    CapabilityIsCommand(env.tree, c);
  }

  lemma CapabilityIsCommand(t: Tree, c: Id)
    requires WellFormed(t) && 0 < c < DO_HOOK
    ensures t[c].kind.Cmd? && t[c].options == []
  {}

  lemma CapabilityEndsWalk(env: Env, c: Id, parent: Id, tokens: seq<Token>)
    requires EnvOk(env) && 0 < c < DO_HOOK
    ensures Walk(env, c, parent, tokens)
         == if tokens == [] then Walked(COMPLETE, c, parent, [], false) else Walked(CMD_NOT_FOUND, c, c, [], false)
  {
    var t := env.tree;
    assert t[c].options == [];
    if tokens != [] {
      assert MatchAt(t, c, tokens[0]) == NotFound;
    }
  }

  /** Storing leaves strictly below `n` leaves the TLVs of the path to `n` as they were. */
  lemma StoreBelowPath(t: Tree, values: Values, leaves: seq<(Id, string)>, n: Id)
    requires WellFormed(t) && InTree(t, n)
    requires forall i | 0 <= i < |leaves| :: n < leaves[i].0
    ensures PathTlvs(t, Store(values, leaves), n) == PathTlvs(t, values, n)
  {
    forall i | CONFIG <= i <= n
      ensures ValueOf(Store(values, leaves), i) == ValueOf(values, i)
    {
      StoreElsewhere(values, leaves, i);
    }
    PathTlvsFrame(t, Store(values, leaves), values, n);
  }

  /** What one step stores: a leaf's value, nothing for a command. */
  function Taken(t: Tree, c: Id, text: string): seq<(Id, string)>
    requires c < |t|
  {
    if t[c].kind.Leaf? then [(c, text)] else []
  }

  lemma TakenIs(t: Tree, values: Values, c: Id, text: string)
    requires c < |t|
    ensures Store(values, Taken(t, c, text)) == if t[c].kind.Leaf? then values[c := text] else values
    ensures LeafTlvs(t, Taken(t, c, text)) == if t[c].kind.Leaf? then [LeafTlv(t, c, text)] else []
  {
    assert [(c, text)][1..] == [];
    assert Store(values[c := text], []) == values[c := text];
    assert LeafTlvs(t, []) == [];
  }

  /** Taking a leaf's value extends the path's TLVs by that leaf; taking a command adds nothing. */
  lemma PathStep(t: Tree, values: Values, cur: Id, c: Id, text: string)
    requires WellFormed(t) && OnTree(t, cur) && CONFIG <= c < |t| && c in t[cur].options
    ensures PathTlvs(t, Store(values, Taken(t, c, text)), c)
         == PathTlvs(t, values, cur) + LeafTlvs(t, Taken(t, c, text))
  {
    var own := Taken(t, c, text);
    var stored := Store(values, own);
    TakenIs(t, values, c, text);
    ChildBranch(t, cur, c);
    AnchorPath(t, values, cur);
    AnchorPath(t, stored, cur);
    StoreBelowPath(t, values, own, Anchor(t, cur));
    PathTlvsChild(t, stored, cur, c);
  }

  lemma JoinTaken(t: Tree, values: Values, own: seq<(Id, string)>, rest: seq<(Id, string)>, path: seq<Tlv>)
    requires LeavesOk(t, own) && LeavesOk(t, rest)
    ensures LeavesOk(t, own + rest)
    ensures Store(values, own + rest) == Store(Store(values, own), rest)
    ensures path + LeafTlvs(t, own + rest) == (path + LeafTlvs(t, own)) + LeafTlvs(t, rest)
  {
    StoreAppend(values, own, rest);
    LeafTlvsAppend(t, own, rest);
    Associate(path, LeafTlvs(t, own), LeafTlvs(t, rest));
  }

  /** After the walk's leaf values are stored, the TLVs of the path to its end are those of its start followed
      by what it collected. */
  ghost predicate CollectsPath(t: Tree, values: Values, cur: Id, w: Walked) {
    && OnTree(t, EndOf(w)) && LeavesOk(t, w.leaves)
    && PathTlvs(t, Store(values, w.leaves), EndOf(w)) == PathTlvs(t, values, cur) + LeafTlvs(t, w.leaves)
  }

  lemma AfterCompleteStep(env: Env, cur: Id, c: Id, text: string, rest: Walked)
    requires c < |env.tree| && AfterStep(env, cur, c, text, rest).status == COMPLETE
    ensures var w := AfterStep(env, cur, c, text, rest);
            w.leaves == Taken(env.tree, c, text) + rest.leaves && EndOf(w) == EndOf(rest)
  {}

  lemma CollectsStep(env: Env, values: Values, cur: Id, c: Id, text: string, rest: Walked)
    requires EnvOk(env) && OnTree(env.tree, cur) && CONFIG <= c < |env.tree| && c in env.tree[cur].options
    requires CollectsPath(env.tree, Store(values, Taken(env.tree, c, text)), c, rest)
    requires AfterStep(env, cur, c, text, rest).status == COMPLETE
    ensures CollectsPath(env.tree, values, cur, AfterStep(env, cur, c, text, rest))
  {
    var t := env.tree;
    var own, path := Taken(t, c, text), PathTlvs(t, values, cur);
    PathStep(t, values, cur, c, text);
    assert LeavesOk(t, own);
    JoinTaken(t, values, own, rest.leaves, path);
    AfterCompleteStep(env, cur, c, text, rest);
    calc {
      PathTlvs(t, Store(values, own + rest.leaves), EndOf(rest));
      (path + LeafTlvs(t, own)) + LeafTlvs(t, rest.leaves);
      path + LeafTlvs(t, own + rest.leaves);
    }
  }

  lemma CapabilityCollectsNothing(env: Env, values: Values, cur: Id, c: Id, tokens: seq<Token>)
    requires EnvOk(env) && OnTree(env.tree, cur) && 0 < c < DO_HOOK && tokens != []
    ensures var w := AfterStep(env, cur, c, tokens[0].text, Walk(env, c, cur, tokens[1..]));
            w.status == COMPLETE ==> CollectsPath(env.tree, values, cur, w)
  {
    CapabilityStep(env, cur, c, tokens);
    var w := AfterStep(env, cur, c, tokens[0].text, Walk(env, c, cur, tokens[1..]));
    assert PathTlvs(env.tree, values, cur) + [] == PathTlvs(env.tree, values, cur);
    assert Store(values, w.leaves) == values && LeafTlvs(env.tree, w.leaves) == [];
  }

  /** The buffer a successful walk collects is the tree's own account of the path it took. */
  lemma {:induction false} WalkCollectsPath(env: Env, values: Values, cur: Id, parent: Id, tokens: seq<Token>)
    requires EnvOk(env) && OnTree(env.tree, cur)
    requires Walk(env, cur, parent, tokens).status == COMPLETE && (tokens == [] ==> cur >= CONFIG)
    ensures CollectsPath(env.tree, values, cur, Walk(env, cur, parent, tokens))
    decreases |tokens|
  {
    var t := env.tree;
    if tokens == [] {
      assert PathTlvs(t, values, cur) + [] == PathTlvs(t, values, cur);
    } else {
      WalkStep(env, cur, parent, tokens);
      var c := MatchAt(t, cur, tokens[0]).param;
      StepOnTree(t, cur, tokens[0]);
      if c < CONFIG {
        CapabilityCollectsNothing(env, values, cur, c, tokens);
      } else {
        WalkCollectsPath(env, Store(values, Taken(t, c, tokens[0].text)), c, cur, tokens[1..]);
        CollectsStep(env, values, cur, c, tokens[0].text, Walk(env, c, cur, tokens[1..]));
      }
    }
  }

  // ---- where a walk can end ----

  lemma ModeSlot(t: Tree, n: Id)
    requires WellFormed(t) && OnTree(t, n) && MODE in t[n].options
    ensures n != DO_HOOK && !t[n].kind.NoCmd?
  {
    assert OptionsOk(t, n);
    var k :| 0 <= k < |t[n].options| && t[n].options[k] == MODE;
    assert k == 0;
  }

  /** A complete walk ends at a param of the tree or at a capability of one; "/" is never asked for at a `no`
      or at the do-hook. */
  ghost predicate Placed(t: Tree, w: Walked) {
    && LeavesOk(t, w.leaves) && w.param < |t| && w.parent < |t|
    && (w.status == COMPLETE ==>
          && 0 < w.param != DO_HOOK && OnTree(t, EndOf(w))
          && (w.param == MODE ==> w.parent != DO_HOOK && !t[w.parent].kind.NoCmd?))
  }

  lemma PlacedStep(env: Env, cur: Id, c: Id, text: string, rest: Walked)
    requires EnvOk(env) && cur < |env.tree| && CONFIG <= c < |env.tree| && Placed(env.tree, rest)
    ensures Placed(env.tree, AfterStep(env, cur, c, text, rest))
  {}

  lemma {:induction false} WalkIsPlaced(env: Env, cur: Id, parent: Id, tokens: seq<Token>)
    requires EnvOk(env) && OnTree(env.tree, cur) && parent < |env.tree| && (tokens == [] ==> cur >= CONFIG)
    ensures Placed(env.tree, Walk(env, cur, parent, tokens))
    decreases |tokens|
  {
    var t := env.tree;
    if tokens != [] {
      WalkStep(env, cur, parent, tokens);
      if MatchAt(t, cur, tokens[0]).Found? {
        var c := MatchAt(t, cur, tokens[0]).param;
        StepOnTree(t, cur, tokens[0]);
        if c < CONFIG {
          CapabilityEndsWalk(env, c, cur, tokens[1..]);
          if c == MODE {
            ModeSlot(t, cur);
          }
        } else {
          WalkIsPlaced(env, c, cur, tokens[1..]);
          PlacedStep(env, cur, c, tokens[0].text, Walk(env, c, cur, tokens[1..]));
        }
      }
    }
  }

  /** A command line walked from the cursor. */
  ghost function WalkFrom(env: Env, cursor: Id, tokens: seq<Token>): (w: Walked)
    requires EnvOk(env) && OnTree(env.tree, cursor) && tokens != []
    ensures Placed(env.tree, w)
  {
    WalkIsPlaced(env, cursor, cursor, tokens);
    Walk(env, cursor, cursor, tokens)
  }
}
