/** Lines fed back to the parser by a handler (CommandParser/clistd.c:238-281): they start on the buffer of the
    command that feeds them back. */
module CliFeedback {
  import opened CommandTree
  import opened CommandWalk
  import opened CliModel
  import opened CliShadow
  import opened CliTheorems

  /** A command whose handler feeds one recorded line back, as `show history` does. */
  ghost predicate FeedsOneBack(env: Env, cursor: Id, tokens: seq<Token>)
    requires EnvOk(env) && OnTree(env.tree, cursor) && tokens != []
  {
    var w := WalkFrom(env, cursor, tokens);
    && w.status == COMPLETE && w.param > CONFIG && env.tree[w.param].hasCallback
    && env.tree[w.param].rerun == OneLine
  }

  /** A line that leaves the cursor in a mode with the checkpoint set anew: "?", "/" or `config`, or `cd..` out
      of a leaf; or a do-command that returns to a `no`. */
  ghost predicate SetsCheckpoint(env: Env, cursor: Id, tokens: seq<Token>)
    requires EnvOk(env) && InTree(env.tree, cursor)
  {
    match Classify(cursor, tokens)
    case Ordinary =>
      var w := WalkFrom(env, cursor, tokens);
      w.status == COMPLETE && w.param in {SUBOPTIONS, MODE, CONFIG} && EndOf(w) != ROOT
    case CdUp => cursor != ROOT && env.tree[cursor].kind.Leaf? && env.tree[cursor].parent != ROOT
    case DoCommand => Breaks(env, cursor, tokens)
    case _ => false
  }

  /** A plain line on a buffer that is off, with a checkpoint that is not. */
  lemma PlainLineOnDirtyBuffer(env: Env, cursor: Id, line: Line)
    requires EnvOk(env) && InScope(line) && line.reruns == [] && CursorOk(env.tree, cursor)
    ensures Clean(ShFinish(ShParse(env, Shadow(cursor, true, false), line).0))
       <==> !SetsCheckpoint(env, cursor, line.tokens)
  {
    var tokens := line.tokens;
    var sh := Shadow(cursor, true, false);
    match Classify(cursor, tokens) {
      case DoCommand =>
        if Branch(env.tree, cursor) == CONFIG {
          PlainDo(env, cursor, tokens[1..], line);
        }
      case Ordinary =>
        ShOrdinaryLine(env, sh, line);
        PlainBuild(env, sh, tokens, line);
        EndBranch(env, cursor, tokens);
      case CdUp => assert cursor != ROOT ==> ParentOk(env.tree, cursor);
      case Repeat => assert ShFeedBack(env, sh, line, OneLine, 0) == sh;
      case RunUnitTest => assert ShFeedBack(env, sh, line, Script, 0) == sh;
      case _ =>
    }
  }

  lemma InvokeFeedsOneBack(env: Env, cursor: Id, tainted: bool, param: Id, line: Line)
    requires EnvOk(env) && InScope(line) && OnTree(env.tree, cursor) && param < |env.tree|
    requires env.tree[param].rerun == OneLine && line.reruns != []
    ensures ShInvoke(env, cursor, tainted, param, line)
         == ShParse(env, Shadow(cursor, true, tainted), line.reruns[0]).0
  {
    var dirty := Shadow(cursor, true, tainted);
    var again := ShParse(env, dirty, line.reruns[0]).0;
    assert ShFeedBack(env, again, line, OneLine, 0) == again;
    assert ShFeedBack(env, dirty, line, OneLine, 1) == again;
  }

  /** A line that hands one further line to the parser: `repeat`, or a history command. */
  ghost predicate Relays(env: Env, cursor: Id, line: Line)
    requires EnvOk(env) && OnTree(env.tree, cursor)
  {
    line.reruns != [] &&
    match Classify(cursor, line.tokens)
    case Repeat => true
    case Ordinary => FeedsOneBack(env, cursor, line.tokens)
    case _ => false
  }

  /** Relays all the way down to a line that feeds nothing back. */
  ghost predicate Chain(env: Env, cursor: Id, line: Line)
    requires EnvOk(env) && OnTree(env.tree, cursor)
    decreases line
  {
    line.reruns == [] || (Relays(env, cursor, line) && Chain(env, cursor, line.reruns[0]))
  }

  /** The line at the end of a chain. */
  function Innermost(line: Line): Line {
    if line.reruns == [] then line else Innermost(line.reruns[0])
  }

  /** Is there a history command on the way? */
  predicate PassesHistory(cursor: Id, line: Line) {
    line.reruns != [] && (Classify(cursor, line.tokens) == Ordinary || PassesHistory(cursor, line.reruns[0]))
  }

  /** The buffer a chain's last line finds: a history command leaves its own code in it, `repeat` nothing. */
  ghost function OnEntry(sh: Shadow, history: bool): Shadow
    requires sh.Shadow?
  {
    if history then Shadow(sh.cursor, true, sh.tainted) else sh
  }

  lemma RelayShadow(env: Env, sh: Shadow, line: Line)
    requires EnvOk(env) && InScope(line) && sh.Shadow? && OnTree(env.tree, sh.cursor) && Relays(env, sh.cursor, line)
    ensures var entry := OnEntry(sh, Classify(sh.cursor, line.tokens) == Ordinary);
            ShParse(env, sh, line).0 == ShFinish(ShParse(env, entry, line.reruns[0]).0)
  {
    if Classify(sh.cursor, line.tokens) == Ordinary {
      var w := WalkFrom(env, sh.cursor, line.tokens);
      InvokeFeedsOneBack(env, sh.cursor, sh.tainted, w.param, line);
      ShOrdinaryLine(env, sh, line);
      ShCompleteCommand(env, sh, line.tokens, line);
    } else {
      var again := ShParse(env, sh, line.reruns[0]).0;
      assert ShFeedBack(env, again, line, OneLine, 0) == again;
      assert ShFeedBack(env, sh, line, OneLine, 1) == again;
    }
  }

  lemma {:induction false} ChainShadow(env: Env, sh: Shadow, line: Line)
    requires EnvOk(env) && InScope(line) && sh.Shadow? && OnTree(env.tree, sh.cursor) && Chain(env, sh.cursor, line)
    ensures InScope(Innermost(line)) && Innermost(line).reruns == []
    ensures ShFinish(ShParse(env, sh, line).0)
         == ShFinish(ShParse(env, OnEntry(sh, PassesHistory(sh.cursor, line)), Innermost(line)).0)
    decreases line
  {
    if line.reruns != [] {
      RelayShadow(env, sh, line);
      ChainShadow(env, OnEntry(sh, Classify(sh.cursor, line.tokens) == Ordinary), line.reruns[0]);
    }
  }

  lemma FinishedIsClean(env: Env, sh: Shadow, line: Line)
    requires EnvOk(env) && InScope(line) && sh.Shadow? && OnTree(env.tree, sh.cursor) && Clean(sh)
    ensures Clean(ShParse(env, sh, line).0) <==> Clean(ShFinish(ShParse(env, sh, line).0))
  {}

  /** A line fed back, however often it is passed on, breaks the invariant exactly when it sets the checkpoint
      behind a history command's code, or would break it when typed. */
  lemma FedBackLineBreaks(env: Env, st: State, line: Line)
    requires EnvOk(env) && Consistent(env, st) && !st.halted && InScope(line) && Chain(env, st.cursor, line)
    ensures var last := Innermost(line).tokens;
            Consistent(env, Parse(env, st, line).0)
            <==> if PassesHistory(st.cursor, line) then !SetsCheckpoint(env, st.cursor, last)
                 else !Breaks(env, st.cursor, last)
  {
    var sh := ShadowOf(env, st);
    ModeBufferInvariant(env, st, line);
    ChainShadow(env, sh, line);
    FinishedIsClean(env, sh, line);
    if PassesHistory(st.cursor, line) {
      PlainLineOnDirtyBuffer(env, st.cursor, Innermost(line));
    } else {
      PlainShadow(env, sh, Innermost(line));
      FinishedIsClean(env, sh, Innermost(line));
    }
  }

  // ---- the buffer it leaves ----

  /** The state a fed-back line starts from: the outer command's leaves and code are still in the buffer. */
  ghost function InHandler(env: Env, st: State, w: Walked): State
    requires Placed(env.tree, w)
  {
    var coded := Collect(Collected(env.tree, st, w.leaves), CodeTlv(env.tree[w.param].cmdCode));
    Called(env.tree, coded, w.param, w.negated)
  }

  lemma HandlerFeedsOneBack(env: Env, st: State, param: Id, negated: bool, line: Line)
    requires EnvOk(env) && InScope(line) && !st.halted && OnTree(env.tree, st.cursor) && param < |env.tree|
    requires env.tree[param].rerun == OneLine && line.reruns != []
    ensures Invoke(env, st, param, negated, line)
         == Parse(env, Called(env.tree, st, param, negated), line.reruns[0]).0
  {
    var called := Called(env.tree, st, param, negated);
    var next := Parse(env, called, line.reruns[0]).0;
    assert FeedBack(env, next, line, OneLine, 0) == next;
    assert FeedBack(env, called, line, OneLine, 1) == next;
  }

  lemma FedBackLine(env: Env, st: State, line: Line)
    requires EnvOk(env) && Sane(env, st) && !st.halted && InScope(line) && line.reruns != []
    requires Classify(st.cursor, line.tokens) == Ordinary && FeedsOneBack(env, st.cursor, line.tokens)
    ensures var inner := InHandler(env, st, WalkFrom(env, st.cursor, line.tokens));
            Parse(env, st, line).0 == Finish(Parse(env, inner, line.reruns[0]).0)
  {
    var w := WalkFrom(env, st.cursor, line.tokens);
    var collected := Collected(env.tree, st, w.leaves);
    EndBranch(env, st.cursor, line.tokens);
    OrdinaryLine(env, st, line);
    CompleteCommand(env, st, line.tokens, line);
    HandlerFeedsOneBack(env, Collect(collected, CodeTlv(env.tree[w.param].cmdCode)), w.param, w.negated, line);
    assert Dispatch(env, collected, w, line) == RunCommand(env, collected, w.param, w.negated, line);
  }

  lemma PlainEnterMode(env: Env, st: State, parent: Id, negated: bool, line: Line)
    requires EnvOk(env) && InScope(line) && line.reruns == [] && !st.halted && InTree(env.tree, parent)
    requires parent != ROOT && parent != CONFIG
    ensures var done := EnterMode(env, st, parent, negated, line);
            && !done.halted && done.cursor == parent && done.saved == st.tlvs && done.values == st.values
            && done.tlvs == st.tlvs + [CodeTlv(env.tree[parent].cmdCode)]
  {
    var entered := Collect(Mark(st), CodeTlv(env.tree[parent].cmdCode)).(cursor := parent);
    NothingFedBack(env, entered, parent, negated, line);
  }

  /** A mode entered by a fed-back line: its buffer begins with the TLVs of the command that fed it back, the
      command code included, and only then come those of the mode's own path. */
  lemma FedBackModeHasForeignTlvs(env: Env, st: State, line: Line)
    requires EnvOk(env) && Consistent(env, st) && !st.halted && InScope(line)
    requires Classify(st.cursor, line.tokens) == Ordinary && FeedsOneBack(env, st.cursor, line.tokens)
    requires line.reruns != [] && line.reruns[0].reruns == []
    requires Classify(st.cursor, line.reruns[0].tokens) == Ordinary
    requires var v := WalkFrom(env, st.cursor, line.reruns[0].tokens);
             v.status == COMPLETE && v.param == MODE && v.parent !in {ROOT, CONFIG}
    ensures var w := WalkFrom(env, st.cursor, line.tokens);
            var v := WalkFrom(env, st.cursor, line.reruns[0].tokens);
            var after := Parse(env, st, line).0;
            && !after.halted && after.cursor == v.parent
            && Path(env, after) == st.tlvs + LeafTlvs(env.tree, v.leaves)
            && after.tlvs == after.saved
            == st.tlvs + LeafTlvs(env.tree, w.leaves) + [CodeTlv(env.tree[w.param].cmdCode)]
            + LeafTlvs(env.tree, v.leaves)
  {
    var t := env.tree;
    var again := line.reruns[0];
    var w, v := WalkFrom(env, st.cursor, line.tokens), WalkFrom(env, st.cursor, again.tokens);
    var inner := InHandler(env, st, w);
    var collected := Collected(t, inner, v.leaves);
    FedBackLine(env, st, line);
    WalkKeepsStartPath(env, st.values, st.cursor, line.tokens);
    WalkCollectsPath(env, inner.values, st.cursor, st.cursor, again.tokens);
    assert t[MODE].hasCallback;
    OrdinaryLine(env, inner, again);
    CompleteCommand(env, inner, again.tokens, again);
    PlainEnterMode(env, collected, v.parent, v.negated, again);
    assert Dispatch(env, collected, v, again) == EnterMode(env, collected, v.parent, v.negated, again);
  }
}
