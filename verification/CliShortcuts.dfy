/** What `do`, `cd..` and `cd` amount to. */
module CliShortcuts {
  import opened CommandTree
  import opened CommandWalk
  import opened CliModel
  import opened CliShadow
  import opened CliRefinement
  import opened CliTheorems
  import opened CliFeedback

  // ---- do ----

  ghost predicate SameConfig(t: Tree, a: Values, b: Values) {
    forall i | Branch(t, i) == CONFIG :: ValueOf(a, i) == ValueOf(b, i)
  }

  lemma WalkFromHookKeepsConfig(env: Env, values: Values, tokens: seq<Token>)
    requires EnvOk(env) && tokens != []
    ensures SameConfig(env.tree, values, Store(values, WalkFrom(env, DO_HOOK, tokens).leaves))
  {
    var w := WalkFrom(env, DO_HOOK, tokens);
    var b := WalkFromTop(env, DO_HOOK, DO_HOOK, tokens);
    forall i | Branch(env.tree, i) == CONFIG
      ensures ValueOf(values, i) == ValueOf(Store(values, w.leaves), i)
    {
      StoreElsewhere(values, w.leaves, i);
    }
  }

  /** Started at the do-hook and still there: no value holder of the config branch was touched. */
  ghost predicate HookKept(t: Tree, before: State, after: State) {
    !after.halted && after.cursor == DO_HOOK ==> SameConfig(t, before.values, after.values)
  }

  lemma FeedBackAtHook(env: Env, st: State, line: Line, how: Rerun, left: nat)
    requires EnvOk(env) && InScope(line) && left <= Fed(line, how) && !st.halted && st.cursor == DO_HOOK
    ensures HookKept(env.tree, st, FeedBack(env, st, line, how, left))
    decreases line, left
  {
    if left > 0 {
      var again := line.reruns[Fed(line, how) - left];
      var (next, status) := Parse(env, st, again);
      var rest := next.(halted := next.halted || (how.Script? && status != COMPLETE));
      ParseAtHook(env, st, again);
      if !rest.halted && rest.cursor == DO_HOOK {
        FeedBackAtHook(env, rest, line, how, left - 1);
      } else {
        assert Follows(env.tree, rest, FeedBack(env, rest, line, how, left - 1));
        assert rest.halted ==> FeedBack(env, rest, line, how, left - 1) == rest;
      }
    }
  }

  lemma BuildAtHook(env: Env, st: State, tokens: seq<Token>, line: Line)
    requires EnvOk(env) && InScope(line) && !st.halted && st.cursor == DO_HOOK && tokens != []
    ensures HookKept(env.tree, st, Build(env, st, tokens, line).0)
    decreases line, |line.reruns| + 4
  {
    var t := env.tree;
    var w := WalkFrom(env, DO_HOOK, tokens);
    var collected := Collected(t, st, w.leaves);
    WalkFromHookKeepsConfig(env, st.values, tokens);
    if w.status == COMPLETE && t[w.param].hasCallback {
      DispatchAtHook(env, collected, w, line);
    }
  }

  lemma DispatchAtHook(env: Env, st: State, w: Walked, line: Line)
    requires EnvOk(env) && InScope(line) && !st.halted && st.cursor == DO_HOOK
    requires Placed(env.tree, w) && w.status == COMPLETE
    ensures HookKept(env.tree, st, Dispatch(env, st, w, line))
    decreases line, |line.reruns| + 3
  {
    var t := env.tree;
    if w.param == MODE {
      EnterLeavesHook(env, st, w.parent, w.negated, line);
    } else if w.param > CONFIG {
      var how := t[w.param].rerun;
      var coded := if Branch(t, w.param) == REPEAT then st else Collect(st, CodeTlv(t[w.param].cmdCode));
      FeedBackAtHook(env, Called(t, coded, w.param, w.negated), line, how, Fed(line, how));
      assert RunCommand(env, st, w.param, w.negated, line) == Invoke(env, coded, w.param, w.negated, line);
    } else if w.param == CONFIG {
      assert RunCommand(env, st, CONFIG, w.negated, line) == Mark(st.(cursor := CONFIG));
    }
  }

  lemma EnterLeavesHook(env: Env, st: State, parent: Id, negated: bool, line: Line)
    requires EnvOk(env) && InScope(line) && !st.halted && InTree(env.tree, parent)
    ensures var done := EnterMode(env, st, parent, negated, line); done.halted || done.cursor != DO_HOOK
  {}

  lemma ParseAtHook(env: Env, st: State, line: Line)
    requires EnvOk(env) && InScope(line) && !st.halted && st.cursor == DO_HOOK
    ensures HookKept(env.tree, st, Parse(env, st, line).0)
    decreases line, |line.reruns| + 7
  {
    match Classify(st.cursor, line.tokens) {
      case Repeat =>
        FeedBackAtHook(env, st, line, OneLine, Fed(line, OneLine));
        assert Handle(env, st, line).0 == FeedBack(env, st, line, OneLine, Fed(line, OneLine));
      case RunUnitTest =>
        FeedBackAtHook(env, st, line, Script, Fed(line, Script));
        assert Handle(env, st, line).0 == FeedBack(env, st, line, Script, Fed(line, Script));
      case Ordinary =>
        BuildAtHook(env, st, line.tokens, line);
        OrdinaryLine(env, st, line);
      case _ =>
    }
  }

  /** `do` is a frame: if the command leaves the cursor at the do-hook, then although the buffer was wiped, and
      whatever was fed back meanwhile, cursor and every value holder of the config branch are as they were, and
      buffer and checkpoint are those of the path again -- with a stray TLV behind the rest if the cursor is on a
      `no`. A buffer that was off before is thereby repaired; one that was not is as it was. */
  lemma DoIsAFrame(env: Env, st: State, line: Line)
    requires BetweenLines(env, st) && InScope(line)
    requires Classify(st.cursor, line.tokens) == DoCommand && Branch(env.tree, st.cursor) == CONFIG
    requires var done := Build(env, AtHook(st), line.tokens[1..], line).0; !done.halted && done.cursor == DO_HOOK
    ensures var after := Parse(env, st, line).0;
            var stray := if env.tree[st.cursor].kind.NoCmd? then [env.stray(st.cursor)] else [];
            && !after.halted && after.cursor == st.cursor && SameConfig(env.tree, st.values, after.values)
            && after.tlvs == after.saved == Path(env, st) + stray
            && Path(env, after) == Path(env, st)
            && (Consistent(env, st) ==> after.tlvs == st.tlvs + stray)
  {
    var tokens := line.tokens[1..];
    var done := Build(env, AtHook(st), tokens, line).0;
    BuildAtHook(env, AtHook(st), tokens, line);
    SameConfigPath(env.tree, st.values, done.values, st.cursor);
    DoLine(env, st, line);
  }

  lemma SameConfigPath(t: Tree, a: Values, b: Values, n: Id)
    requires WellFormed(t) && InTree(t, n) && Branch(t, n) == CONFIG && SameConfig(t, a, b)
    ensures PathTlvs(t, a, n) == PathTlvs(t, b, n)
  {
    PathTlvsFrame(t, a, b, n);
  }

  /** A do-command that feeds nothing back leaves its place exactly when it is complete and ends in "?" or "/"
      (or halts). */
  lemma DoSwitchesModeExactly(env: Env, st: State, tokens: seq<Token>, line: Line)
    requires EnvOk(env) && !st.halted && InTree(env.tree, st.cursor) && tokens != []
    requires InScope(line) && line.reruns == []
    ensures var done := Build(env, AtHook(st), tokens, line).0;
            done.halted || done.cursor != DO_HOOK <==> EndsElsewhere(env, tokens)
  {
    BuildMirrors(env, AtHook(st), Shadow(DO_HOOK, false, false), tokens, line);
    PlainHook(env, tokens, line);
    EndBranch(env, DO_HOOK, tokens);
  }

  /** And then it is in one of the operational branches: neither assertion of the do-branch can fail. */
  lemma DoLeavesConfig(env: Env, st: State, tokens: seq<Token>, line: Line)
    requires EnvOk(env) && !st.halted && InTree(env.tree, st.cursor) && tokens != []
    requires InScope(line) && line.reruns == []
    ensures var done := Build(env, AtHook(st), tokens, line).0;
            && (!done.halted && done.cursor != DO_HOOK ==> Branch(env.tree, done.cursor) in {SHOW, DEBUG, CLEAR})
            && (RunDo(env, st, tokens, line).0.halted <==> done.halted)
  {
    BuildMirrors(env, AtHook(st), Shadow(DO_HOOK, false, false), tokens, line);
    PlainHook(env, tokens, line);
    DoSwitchesModeExactly(env, st, tokens, line);
  }

  /** The assertions of the do-branch fail: the command has led to the root, or into the config branch. */
  ghost predicate AssertionFails(t: Tree, cursor: Id) {
    cursor == ROOT || (cursor != DO_HOOK && Branch(t, cursor) == CONFIG)
  }

  /** Whatever is fed back, the shadow says whether they do. */
  lemma DoAssertionByShadow(env: Env, st: State, tokens: seq<Token>, line: Line)
    requires EnvOk(env) && !st.halted && InTree(env.tree, st.cursor) && tokens != [] && InScope(line)
    ensures var done := Build(env, AtHook(st), tokens, line).0;
            var sh := ShBuild(env, Shadow(DO_HOOK, false, false), tokens, line).0;
            && (!done.halted && AssertionFails(env.tree, done.cursor)
                <==> sh.Shadow? && AssertionFails(env.tree, sh.cursor))
            && (RunDo(env, st, tokens, line).0.halted
                <==> done.halted || AssertionFails(env.tree, done.cursor))
  {
    BuildMirrors(env, AtHook(st), Shadow(DO_HOOK, false, false), tokens, line);
  }

  /** Where a plain line, fed back in a mode of an operational branch, leads. */
  lemma FedBackInMode(env: Env, sh: Shadow, line: Line)
    requires EnvOk(env) && InScope(line) && line.reruns == [] && sh.Shadow? && CursorOk(env.tree, sh.cursor)
    requires Branch(env.tree, sh.cursor) in {SHOW, DEBUG, CLEAR} && !env.tree[sh.cursor].kind.NoCmd?
    ensures var done := ShParse(env, sh, line).0;
            done.Shadow? && AssertionFails(env.tree, done.cursor)
            <==> || Classify(sh.cursor, line.tokens) == CdTop
                 || (Classify(sh.cursor, line.tokens) == CdUp && env.tree[sh.cursor].parent == ROOT)
  {
    var t := env.tree;
    assert Branch(t, CONFIG) == CONFIG && sh.cursor != ROOT;
    match Classify(sh.cursor, line.tokens) {
      case Ordinary =>
        ShOrdinaryLine(env, sh, line);
        PlainBuild(env, sh, line.tokens, line);
        EndBranch(env, sh.cursor, line.tokens);
      case CdUp =>
        assert ParentOk(t, sh.cursor);
        BranchStep(t, sh.cursor);
      case Repeat => assert ShFeedBack(env, sh, line, OneLine, 0) == sh;
      case RunUnitTest => assert ShFeedBack(env, sh, line, Script, 0) == sh;
      case _ =>
    }
  }

  /** And where one leads that is fed back at the do-hook. */
  lemma FedBackAtHook(env: Env, sh: Shadow, line: Line)
    requires EnvOk(env) && InScope(line) && line.reruns == [] && sh.Shadow? && sh.cursor == DO_HOOK
    ensures var done := ShParse(env, sh, line).0;
            !(done.Shadow? && AssertionFails(env.tree, done.cursor))
  {
    assert Branch(env.tree, CONFIG) == CONFIG;
    match Classify(DO_HOOK, line.tokens) {
      case Ordinary =>
        ShOrdinaryLine(env, sh, line);
        PlainBuild(env, sh, line.tokens, line);
        EndBranch(env, DO_HOOK, line.tokens);
      case Repeat => assert ShFeedBack(env, sh, line, OneLine, 0) == sh;
      case RunUnitTest => assert ShFeedBack(env, sh, line, Script, 0) == sh;
      case _ =>
    }
  }

  /** Where the line that a do-command feeds back is started: in the mode it enters, or at the do-hook. */
  function FedAt(w: Walked): Id {
    if w.param == MODE then w.parent else DO_HOOK
  }

  /** When a line is fed back, handed on as often as may be, the assertions fail exactly if the do-command entered
      a history command as a mode and the line is `cd`, or `cd..` in a mode right below the root. */
  lemma DoAssertionExactly(env: Env, st: State, tokens: seq<Token>, line: Line)
    requires EnvOk(env) && !st.halted && InTree(env.tree, st.cursor) && tokens != [] && InScope(line)
    requires line.reruns != []
    requires var w := WalkFrom(env, DO_HOOK, tokens);
             w.status == COMPLETE ==>
               && env.tree[EndOf(w)].rerun != Script
               && (env.tree[EndOf(w)].rerun == OneLine ==> Chain(env, FedAt(w), line.reruns[0]))
    ensures var done := Build(env, AtHook(st), tokens, line).0;
            var w, again := WalkFrom(env, DO_HOOK, tokens), Innermost(line.reruns[0]).tokens;
            !done.halted && AssertionFails(env.tree, done.cursor)
            <==> && w.status == COMPLETE && w.param == MODE
                 && env.tree[w.parent].hasCallback && env.tree[w.parent].rerun == OneLine
                 && (|| Classify(w.parent, again) == CdTop
                     || (Classify(w.parent, again) == CdUp && env.tree[w.parent].parent == ROOT))
  {
    var t, hook := env.tree, Shadow(DO_HOOK, false, false);
    var w := WalkFrom(env, DO_HOOK, tokens);
    DoAssertionByShadow(env, st, tokens, line);
    EndBranch(env, DO_HOOK, tokens);
    assert Branch(t, CONFIG) == CONFIG && t[MODE].hasCallback;
    if w.status == COMPLETE && t[w.param].hasCallback {
      ShCompleteCommand(env, hook, tokens, line);
      if w.param == MODE {
        ModeAssertion(env, w.parent, line);
      } else if w.param >= CONFIG {
        CommandAssertion(env, w.param, line);
      }
    }
  }

  /** A chain leads where its last line leads. */
  lemma ChainLeads(env: Env, sh: Shadow, line: Line)
    requires EnvOk(env) && InScope(line) && sh.Shadow? && OnTree(env.tree, sh.cursor) && Chain(env, sh.cursor, line)
    ensures InScope(Innermost(line)) && Innermost(line).reruns == []
    ensures var done := ShParse(env, sh, line).0;
            var last := ShParse(env, OnEntry(sh, PassesHistory(sh.cursor, line)), Innermost(line)).0;
            (done.Shadow? <==> last.Shadow?) && (done.Shadow? ==> done.cursor == last.cursor)
  {
    ChainShadow(env, sh, line);
  }

  lemma ModeAssertion(env: Env, parent: Id, line: Line)
    requires EnvOk(env) && InScope(line) && line.reruns != []
    requires CursorOk(env.tree, parent) && Branch(env.tree, parent) in {SHOW, DEBUG, CLEAR}
    requires !env.tree[parent].kind.NoCmd? && env.tree[parent].rerun != Script
    requires env.tree[parent].rerun == OneLine ==> Chain(env, parent, line.reruns[0])
    ensures var done, again := ShEnter(env, false, parent, line), Innermost(line.reruns[0]).tokens;
            done.Shadow? && AssertionFails(env.tree, done.cursor)
            <==> && env.tree[parent].hasCallback && env.tree[parent].rerun == OneLine
                 && (|| Classify(parent, again) == CdTop
                     || (Classify(parent, again) == CdUp && env.tree[parent].parent == ROOT))
  {
    var t, sh, again := env.tree, Shadow(parent, true, false), line.reruns[0];
    assert Branch(t, CONFIG) == CONFIG && Branch(t, ROOT) == ROOT;
    if t[parent].hasCallback {
      if t[parent].rerun == OneLine {
        InvokeFeedsOneBack(env, parent, false, parent, line);
        ChainLeads(env, sh, again);
        FedBackInMode(env, OnEntry(sh, PassesHistory(parent, again)), Innermost(again));
      } else {
        assert ShFeedBack(env, sh, line, Inert, 0) == sh;
      }
    }
  }

  lemma CommandAssertion(env: Env, param: Id, line: Line)
    requires EnvOk(env) && InScope(line) && line.reruns != [] && param < |env.tree|
    requires env.tree[param].rerun != Script
    requires env.tree[param].rerun == OneLine ==> Chain(env, DO_HOOK, line.reruns[0])
    ensures var done := ShInvoke(env, DO_HOOK, false, param, line);
            !(done.Shadow? && AssertionFails(env.tree, done.cursor))
  {
    var hook, again := Shadow(DO_HOOK, true, false), line.reruns[0];
    if env.tree[param].rerun == OneLine {
      InvokeFeedsOneBack(env, DO_HOOK, false, param, line);
      ChainLeads(env, hook, again);
      FedBackAtHook(env, OnEntry(hook, PassesHistory(DO_HOOK, again)), Innermost(again));
    } else {
      assert ShFeedBack(env, hook, line, Inert, 0) == hook;
    }
  }

  // ---- climbing ----

  const CD_UP: seq<Token> := [Token("cd..", 0)]
  const CD: seq<Token> := [Token("cd", 0)]
  const CLIMB := Line(CD_UP, [])
  const JUMP := Line(CD, [])

  lemma CdLines(cursor: Id)
    ensures Classify(cursor, CD_UP) == CdUp && Classify(cursor, CD) == CdTop
    ensures InScope(CLIMB) && InScope(JUMP)
  {
    assert "cd.."[0] == 'c' && "cd"[0] == 'c' && "repeat"[0] == 'r';
    assert |CD_UP| == 1 && CD_UP[0].text == "cd.." && |CD| == 1 && CD[0].text == "cd";
    assert "cd" <= "cd" && "cd.." <= "cd.." && !("cd.." <= "cd");
  }

  function Depth(t: Tree, n: Id): nat
    decreases n
  {
    if !(CONFIG <= n < |t|) || t[n].parent >= n then 0 else 1 + Depth(t, t[n].parent)
  }

  ghost function Repeated(env: Env, st: State, n: nat): State
    requires EnvOk(env) && (!st.halted ==> OnTree(env.tree, st.cursor))
    decreases n
  {
    if n == 0 || st.halted then st else CdLines(st.cursor); Repeated(env, Parse(env, st, CLIMB).0, n - 1)
  }

  /** One `cd..`, as a line. */
  lemma ClimbOne(env: Env, st: State)
    requires BetweenLines(env, st)
    ensures InScope(CLIMB) && Classify(st.cursor, CD_UP) == CdUp
    ensures var up := Parse(env, st, CLIMB).0;
            && up == Finish(OneUp(env.tree, st)) && BetweenLines(env, up)
            && (Consistent(env, st) ==> Consistent(env, up))
  {
    CdLines(st.cursor);
    HandleCases(env, st, CLIMB);
    ModeBufferInvariant(env, st, CLIMB);
    if Consistent(env, st) {
      PlainLineKeepsInvariant(env, st, CLIMB);
    }
  }

  /** Climbing equals jumping, whatever is in the buffer: `cd..` once per level is one `cd`, down to the last
      value holder. */
  lemma {:induction false} ClimbingEqualsJumping(env: Env, st: State)
    requires BetweenLines(env, st) && !env.tree[st.cursor].kind.NoCmd?
    ensures InScope(JUMP)
    ensures Repeated(env, st, Depth(env.tree, st.cursor)) == Parse(env, st, JUMP).0
    decreases st.cursor
  {
    var t := env.tree;
    CdLines(st.cursor);
    if st.cursor != ROOT {
      assert ParentOk(t, st.cursor);
      var up := Parse(env, st, CLIMB).0;
      ClimbOne(env, st);
      ClimbingEqualsJumping(env, up);
      CdLines(up.cursor);
      UpThenTop(t, st);
    }
  }

  /** From a `no`, where "?" may have left the cursor, the two differ: one climb leads to the negated param, but
      the jump clears a value holder that does not exist. */
  lemma JumpingFromNoHalts(env: Env, st: State)
    requires BetweenLines(env, st) && env.tree[st.cursor].kind.NoCmd?
    ensures InScope(JUMP) && Parse(env, st, JUMP).0.halted
    ensures InScope(CLIMB) && Parse(env, st, CLIMB).0 == st.(cursor := env.tree[st.cursor].parent)
  {
    CdLines(st.cursor);
    ClimbOne(env, st);
    assert ParentOk(env.tree, st.cursor);
    assert PathTlvs(env.tree, st.values, st.cursor) == PathTlvs(env.tree, st.values, env.tree[st.cursor].parent) + [];
  }

  /** One level up and then to the top is to the top. */
  lemma UpThenTop(t: Tree, st: State)
    requires WellFormed(t) && CONFIG <= st.cursor < |t| && !t[st.cursor].kind.NoCmd? && !st.halted
    ensures Finish(OneUp(t, st)).cursor < |t|
    ensures Finish(ToTop(t, Finish(OneUp(t, st)))) == Finish(ToTop(t, st))
  {
    assert ParentOk(t, st.cursor);
    var parent := t[st.cursor].parent;
    var up := Finish(OneUp(t, st));
    assert Cleared(t, st.values, st.cursor) == Cleared(t, up.values, parent);
    if parent == ROOT {
      assert up == State(ROOT, [], [], up.values, st.calls, false);
    } else {
      assert Finish(ToTop(t, up)) == State(ROOT, [], [], Cleared(t, up.values, parent), st.calls, false);
    }
  }

  /** On the way up every intermediate buffer is that of its own path. */
  lemma {:induction false} ClimbingIsConsistent(env: Env, st: State, n: nat)
    requires EnvOk(env) && Consistent(env, st)
    ensures Consistent(env, Repeated(env, st, n))
    decreases n
  {
    if n > 0 && !st.halted {
      ClimbOne(env, st);
      ClimbingIsConsistent(env, Parse(env, st, CLIMB).0, n - 1);
    }
  }
}
