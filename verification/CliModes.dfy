/** Entering a mode first and finishing the command there means the same as typing it in one piece. */
module CliModes {
  import opened CommandTree
  import opened CommandWalk
  import opened CliModel
  import opened CliTheorems
  import opened CliFeedback
  import opened CliHandlers

  const SLASH := Token("/", 0)

  lemma WalkIgnoresParent(env: Env, cur: Id, parent: Id, other: Id, tokens: seq<Token>)
    requires EnvOk(env) && cur < |env.tree| && tokens != []
    ensures Walk(env, cur, parent, tokens) == Walk(env, cur, other, tokens)
  {
    WalkStep(env, cur, parent, tokens);
    WalkStep(env, cur, other, tokens);
  }

  /** "/" matches the mode slot of any param that has options and is not a `no`. */
  lemma SlashMatches(t: Tree, n: Id)
    requires WellFormed(t) && CONFIG <= n < |t| && !t[n].kind.NoCmd? && t[n].options != []
    ensures MatchAt(t, n, SLASH) == Found(MODE)
  {
    assert OptionsOk(t, n);
    OptionsAreInTable(t, n);
    assert t[n].options[0] == MODE && FirstExact(t, t[n].options, "/") == 0;
    assert Abbreviated(t, t[n].options[..0], "/") == [];
  }

  /** `p /` typed at the root. */
  lemma EnteringMode(env: Env, st: State, p: seq<Token>, line: Line)
    requires EnvOk(env) && InScope(line) && !st.halted && OnTree(env.tree, st.cursor) && p != []
    requires var w := WalkFrom(env, st.cursor, p);
             && w.status == COMPLETE && CONFIG <= w.param
             && !env.tree[w.param].kind.NoCmd? && env.tree[w.param].options != []
    ensures var w := WalkFrom(env, st.cursor, p);
            Build(env, st, p + [SLASH], line)
            == (EnterMode(env, Collected(env.tree, st, w.leaves), w.param, w.negated, line), COMPLETE)
  {
    var t := env.tree;
    var w := WalkFrom(env, st.cursor, p);
    WalkAppend(env, st.cursor, st.cursor, p, [SLASH]);
    WalkStep(env, w.param, w.parent, [SLASH]);
    SlashMatches(t, w.param);
    CapabilityEndsWalk(env, MODE, w.param, []);
    assert [SLASH][1..] == [] && [SLASH][0] == SLASH;
    assert w.leaves + [] == w.leaves;
    var v := WalkFrom(env, st.cursor, p + [SLASH]);
    assert v == Walked(COMPLETE, MODE, w.param, w.leaves, w.negated);
    assert t[MODE].hasCallback;
    CompleteCommand(env, st, p + [SLASH], line);
    assert Dispatch(env, Collected(t, st, w.leaves), v, line)
        == EnterMode(env, Collected(t, st, w.leaves), w.param, w.negated, line);
  }

  /** Two states a command cannot tell apart: same buffer, same value holders. */
  ghost predicate Alike(a: State, b: State) {
    a.tlvs == b.tlvs && a.values == b.values && !a.halted && !b.halted
  }

  function NewCalls(before: State, after: State): seq<Call>
    requires |before.calls| <= |after.calls|
  {
    after.calls[|before.calls|..]
  }

  /** Where two commands leave things: halted alike, the same value holders, and either neither moved the
      cursor or both are in the same mode with the same buffer and checkpoint. */
  ghost predicate EndAlike(a: State, b: State, a': State, b': State) {
    && a'.halted == b'.halted && a'.values == b'.values
    && |a.calls| <= |a'.calls| && |b.calls| <= |b'.calls|
    && ((a'.cursor == a.cursor && b'.cursor == b.cursor && a'.saved == a.saved && b'.saved == b.saved)
        || (a'.cursor == b'.cursor && a'.saved == b'.saved))
  }

  /** They end alike and invoke the same handler with the same view, unless the second forgets a `no`. */
  ghost predicate SameMeaning(a: State, b: State, a': State, b': State, forgets: bool) {
    && EndAlike(a, b, a', b')
    && (NewCalls(a, a') == NewCalls(b, b') <==> !forgets || NewCalls(a, a') == [])
  }

  /** Both states are on the tree, and neither line feeds anything back. */
  ghost predicate Comparable(env: Env, a: State, b: State, one: Line, two: Line) {
    && EnvOk(env) && InScope(one) && InScope(two) && one.reruns == two.reruns == []
    && !a.halted && !b.halted && OnTree(env.tree, a.cursor) && OnTree(env.tree, b.cursor)
  }

  lemma DispatchAlike(env: Env, a: State, b: State, w: Walked, v: Walked, one: Line, two: Line)
    requires Comparable(env, a, b, one, two) && Alike(a, b)
    requires Placed(env.tree, w) && Placed(env.tree, v) && w.status == COMPLETE
    requires v == w.(leaves := v.leaves, negated := v.negated)
    requires w.negated != v.negated ==> Branch(env.tree, EndOf(w)) == CONFIG
    ensures SameMeaning(a, b, Dispatch(env, a, w, one), Dispatch(env, b, v, two), w.negated != v.negated)
  {
    if w.param == MODE {
      EnterAlike(env, a, b, w.parent, w.negated, v.negated, one, two);
      assert Dispatch(env, a, w, one) == EnterMode(env, a, w.parent, w.negated, one);
      assert Dispatch(env, b, v, two) == EnterMode(env, b, v.parent, v.negated, two);
    } else if w.param >= CONFIG {
      RunAlike(env, a, b, w.param, w.negated, v.negated, one, two);
      assert Dispatch(env, a, w, one) == RunCommand(env, a, w.param, w.negated, one);
      assert Dispatch(env, b, v, two) == RunCommand(env, b, v.param, v.negated, two);
    }
  }

  /** The same handler, invoked from two states with the same buffer. */
  lemma InvokeAlike(env: Env, a: State, b: State, param: Id, n: bool, m: bool, one: Line, two: Line)
    requires Comparable(env, a, b, one, two) && Alike(a, b) && param < |env.tree|
    requires n != m ==> Branch(env.tree, param) == CONFIG
    ensures var a', b' := Invoke(env, a, param, n, one), Invoke(env, b, param, m, two);
            && a' == a.(calls := a'.calls) && b' == b.(calls := b'.calls)
            && |a.calls| < |a'.calls| && |b.calls| < |b'.calls|
            && (NewCalls(a, a') == NewCalls(b, b') <==> n == m)
  {
    NothingFedBack(env, a, param, n, one);
    NothingFedBack(env, b, param, m, two);
    var a', b' := Called(env.tree, a, param, n), Called(env.tree, b, param, m);
    assert NewCalls(a, a')[0] == Call(param, a.tlvs, ModeOf(env.tree, param, n));
    assert NewCalls(b, b')[0] == Call(param, b.tlvs, ModeOf(env.tree, param, m));
  }

  lemma EnterAlike(env: Env, a: State, b: State, parent: Id, n: bool, m: bool, one: Line, two: Line)
    requires Comparable(env, a, b, one, two) && Alike(a, b) && InTree(env.tree, parent)
    requires n != m ==> Branch(env.tree, parent) == CONFIG
    ensures SameMeaning(a, b, EnterMode(env, a, parent, n, one), EnterMode(env, b, parent, m, two), n != m)
  {
    if parent != ROOT && parent != CONFIG && env.tree[parent].hasCallback {
      var code := CodeTlv(env.tree[parent].cmdCode);
      InvokeAlike(env, Collect(Mark(a), code).(cursor := parent), Collect(Mark(b), code).(cursor := parent),
                  parent, n, m, one, two);
    }
  }

  lemma RunAlike(env: Env, a: State, b: State, param: Id, n: bool, m: bool, one: Line, two: Line)
    requires Comparable(env, a, b, one, two) && Alike(a, b) && param < |env.tree|
    requires n != m ==> Branch(env.tree, param) == CONFIG
    ensures SameMeaning(a, b, RunCommand(env, a, param, n, one), RunCommand(env, b, param, m, two), n != m)
  {
    if param != CONFIG {
      var code := CodeTlv(env.tree[param].cmdCode);
      if Branch(env.tree, param) == REPEAT {
        InvokeAlike(env, a, b, param, n, m, one, two);
      } else {
        InvokeAlike(env, Collect(a, code), Collect(b, code), param, n, m, one, two);
      }
    }
  }

  /** The rest of a command line, run from the mode, against the whole line run from where the mode was entered. */
  lemma BuildAlike(env: Env, st: State, mode: State, p: seq<Token>, q: seq<Token>, one: Line, two: Line)
    requires Comparable(env, st, mode, one, two) && p != [] && q != []
    requires var w := WalkFrom(env, st.cursor, p);
             && w.status == COMPLETE && CONFIG <= w.param == mode.cursor
             && mode.tlvs == st.tlvs + LeafTlvs(env.tree, w.leaves) && mode.values == Store(st.values, w.leaves)
    ensures var w, rest := WalkFrom(env, st.cursor, p), WalkFrom(env, mode.cursor, q);
            var (whole, oneStatus) := Build(env, st, p + q, one);
            var (half, twoStatus) := Build(env, mode, q, two);
            oneStatus == twoStatus && SameMeaning(st, mode, whole, half, w.negated && !rest.negated)
  {
    var t := env.tree;
    var w, rest := WalkFrom(env, st.cursor, p), WalkFrom(env, mode.cursor, q);
    WholeWalk(env, st.cursor, mode.cursor, p, q);
    var whole := WalkFrom(env, st.cursor, p + q);
    SameCollection(t, st, mode, w.leaves, rest.leaves);
    if rest.status == COMPLETE && t[rest.param].hasCallback {
      var a, b := Collected(t, st, whole.leaves), Collected(t, mode, rest.leaves);
      if w.negated {
        CallBranch(env, st.cursor, mode.cursor, p, q);
      }
      DispatchAlike(env, a, b, whole, rest, one, two);
    }
  }

  lemma WholeWalk(env: Env, cursor: Id, mode: Id, p: seq<Token>, q: seq<Token>)
    requires EnvOk(env) && OnTree(env.tree, cursor) && OnTree(env.tree, mode) && p != [] && q != []
    requires var w := WalkFrom(env, cursor, p); w.status == COMPLETE && w.param == mode
    ensures var w, rest := WalkFrom(env, cursor, p), WalkFrom(env, mode, q);
            WalkFrom(env, cursor, p + q) == Prepend(w.leaves, w.negated, rest)
  {
    var w := WalkFrom(env, cursor, p);
    WalkAppend(env, cursor, cursor, p, q);
    WalkIgnoresParent(env, w.param, w.parent, w.param, q);
  }

  lemma SameCollection(t: Tree, st: State, mode: State, first: seq<(Id, string)>, rest: seq<(Id, string)>)
    requires LeavesOk(t, first) && LeavesOk(t, rest)
    requires mode.tlvs == st.tlvs + LeafTlvs(t, first) && mode.values == Store(st.values, first)
    ensures LeavesOk(t, first + rest)
    ensures Collected(t, st, first + rest).tlvs == Collected(t, mode, rest).tlvs
    ensures Collected(t, st, first + rest).values == Collected(t, mode, rest).values
  {
    JoinTaken(t, st.values, first, rest, st.tlvs);
  }

  /** If the mode's path passed a `no`, the handler the rest of the line reaches is a config handler. */
  lemma CallBranch(env: Env, cursor: Id, mode: Id, p: seq<Token>, q: seq<Token>)
    requires EnvOk(env) && OnTree(env.tree, cursor) && p != [] && q != []
    requires var w := WalkFrom(env, cursor, p);
             w.status == COMPLETE && CONFIG <= w.param == mode && w.negated
    ensures OnTree(env.tree, mode)
    ensures var rest := WalkFrom(env, mode, q);
            rest.status == COMPLETE ==> Branch(env.tree, EndOf(rest)) == CONFIG
  {
    WalkInBranch(env, mode, mode, q);
    if cursor >= CONFIG {
      WalkInBranch(env, cursor, cursor, p);
    } else {
      var b := WalkFromTop(env, cursor, cursor, p);
    }
  }

  /** A line typed at the root and its second half typed in the mode, once both are finished. */
  ghost predicate LinesAlike(st: State, mode: State, one: State, two: State, forgets: bool) {
    && one.halted == two.halted && one.values == two.values
    && (!one.halted ==>
          || (one.cursor == two.cursor && one.tlvs == two.tlvs && one.saved == two.saved)
          || (one.cursor == ROOT && two.cursor == mode.cursor && two.tlvs == two.saved == mode.tlvs))
    && |st.calls| <= |one.calls| && |mode.calls| <= |two.calls|
    && (NewCalls(st, one) == NewCalls(mode, two) <==> !forgets || NewCalls(st, one) == [])
  }

  lemma FinishAlike(st: State, mode: State, one: State, two: State, forgets: bool)
    requires SameMeaning(st, mode, one, two, forgets)
    requires st.cursor == ROOT != mode.cursor && mode.saved == mode.tlvs
    ensures LinesAlike(st, mode, Finish(one), Finish(two), forgets)
  {}

  /** The mode `p /` leads to from the root, on a line that feeds nothing back. */
  ghost function ModeAfter(env: Env, st: State, p: seq<Token>): State
    requires EnvOk(env) && !st.halted && OnTree(env.tree, st.cursor) && !LoadsFile(p + [SLASH])
  {
    Parse(env, st, Line(p + [SLASH], [])).0
  }

  /** A command that can be split at the mode `p` leads to. */
  ghost predicate Splits(env: Env, st: State, p: seq<Token>, q: seq<Token>) {
    && EnvOk(env) && Consistent(env, st) && !st.halted && st.cursor == ROOT && p != [] && q != []
    && var w := WalkFrom(env, ROOT, p);
       && w.status == COMPLETE && CONFIG < w.param
       && !env.tree[w.param].kind.NoCmd? && env.tree[w.param].options != []
       && Classify(ROOT, p + [SLASH]) == Classify(ROOT, p + q) == Classify(w.param, q) == Ordinary
  }

  lemma OrdinaryLoadsNothing(cursor: Id, tokens: seq<Token>)
    requires Classify(cursor, tokens) == Ordinary
    ensures !LoadsFile(tokens)
  {}

  lemma ModeEntered(env: Env, st: State, p: seq<Token>, q: seq<Token>)
    requires Splits(env, st, p, q)
    ensures !LoadsFile(p + [SLASH]) && !LoadsFile(p + q) && !LoadsFile(q)
    ensures var w, mode := WalkFrom(env, ROOT, p), ModeAfter(env, st, p);
            && !mode.halted && mode.cursor == w.param && mode.saved == mode.tlvs
            && mode.tlvs == LeafTlvs(env.tree, w.leaves) && mode.values == Store(st.values, w.leaves)
  {
    var w := WalkFrom(env, ROOT, p);
    var line := Line(p + [SLASH], []);
    OrdinaryLoadsNothing(ROOT, p + [SLASH]);
    OrdinaryLoadsNothing(ROOT, p + q);
    OrdinaryLoadsNothing(w.param, q);
    EnteringMode(env, st, p, line);
    OrdinaryLine(env, st, line);
    PlainEnterMode(env, Collected(env.tree, st, w.leaves), w.param, w.negated, line);
  }

  /** Splitting a command at a mode preserves its meaning: the same outcome, the same value holders, the same
      further mode if it enters one, and the same handler call with the same TLVs, code and operation mode --
      except, exactly, when the mode's path passed a `no`, the rest passes none, and a handler is invoked. */
  lemma ModeSplitting(env: Env, st: State, p: seq<Token>, q: seq<Token>)
    requires Splits(env, st, p, q)
    ensures !LoadsFile(p + [SLASH]) && !LoadsFile(p + q) && !LoadsFile(q)
    ensures var w, mode := WalkFrom(env, ROOT, p), ModeAfter(env, st, p);
            && !mode.halted && mode.cursor == w.param
            && var (whole, oneStatus) := Parse(env, st, Line(p + q, []));
               var (half, twoStatus) := Parse(env, mode, Line(q, []));
               && oneStatus == twoStatus
               && LinesAlike(st, mode, whole, half, w.negated && !WalkFrom(env, mode.cursor, q).negated)
  {
    ModeEntered(env, st, p, q);
    var w, mode := WalkFrom(env, ROOT, p), ModeAfter(env, st, p);
    var one, two := Line(p + q, []), Line(q, []);
    assert st.tlvs + LeafTlvs(env.tree, w.leaves) == mode.tlvs;
    BuildAlike(env, st, mode, p, q, one, two);
    OrdinaryLine(env, st, one);
    OrdinaryLine(env, mode, two);
    FinishAlike(st, mode, Build(env, st, p + q, one).0, Build(env, mode, q, two).0,
                w.negated && !WalkFrom(env, mode.cursor, q).negated);
  }

  /** Whatever handlers feed back afterwards, the command's own call is the same typed in one piece or in two,
      except exactly when a `no` is left behind. */
  lemma SplittingShowsTheSame(env: Env, st: State, p: seq<Token>, q: seq<Token>)
    requires Splits(env, st, p, q)
    ensures !LoadsFile(p + [SLASH])
    ensures var mode := ModeAfter(env, st, p);
            && !mode.halted && OnTree(env.tree, mode.cursor)
            && var whole, rest := WalkFrom(env, ROOT, p + q), WalkFrom(env, mode.cursor, q);
               && (ReachesHandler(env.tree, whole) <==> ReachesHandler(env.tree, rest))
               && (ReachesHandler(env.tree, rest) ==>
                     (OwnCall(env.tree, st, whole) == OwnCall(env.tree, mode, rest)
                      <==> !(WalkFrom(env, ROOT, p).negated && !rest.negated)))
  {
    ModeEntered(env, st, p, q);
    var w, mode := WalkFrom(env, ROOT, p), ModeAfter(env, st, p);
    var rest := WalkFrom(env, mode.cursor, q);
    WholeWalk(env, ROOT, mode.cursor, p, q);
    assert st.tlvs + LeafTlvs(env.tree, w.leaves) == mode.tlvs;
    SameCollection(env.tree, st, mode, w.leaves, rest.leaves);
    if w.negated {
      CallBranch(env, ROOT, mode.cursor, p, q);
    }
  }
}
