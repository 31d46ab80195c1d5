/** What every run of the command parser keeps, and exactly when it does not. */
module CliTheorems {
  import opened CommandTree
  import opened CommandWalk
  import opened CliModel
  import opened CliShadow
  import opened CliRefinement

  /** The mode-buffer invariant: buffer and checkpoint agree, and both are the leaf TLVs of the path from the
      root to the cursor, as the leaves' own value holders have them. */
  ghost predicate Consistent(env: Env, st: State) {
    st.halted || (CursorOk(env.tree, st.cursor) && st.saved == st.tlvs == Path(env, st))
  }

  /** Where the cursor may rest between command lines. */
  ghost predicate CursorOk(t: Tree, n: Id) {
    InTree(t, n) && Branch(t, n) != REPEAT
  }

  ghost predicate Clean(sh: Shadow) {
    sh.Shadow? ==> !sh.dirty && !sh.tainted
  }

  /** Every state a run can be in between two lines: the buffer is at its checkpoint, and empty at the root. */
  ghost predicate BetweenLines(env: Env, st: State) {
    && EnvOk(env) && Sane(env, st) && !st.halted && InTree(env.tree, st.cursor)
    && st.saved == st.tlvs && (st.cursor == ROOT ==> st.tlvs == [])
  }

  /** The shadow of a line's outcome is the outcome of the shadow, status included. */
  lemma ShadowIsExact(env: Env, st: State, line: Line)
    requires EnvOk(env) && Sane(env, st) && !st.halted && InScope(line)
    ensures var (after, status) := Parse(env, st, line);
            Sane(env, after) && (ShadowOf(env, after), status) == ShParse(env, ShadowOf(env, st), line)
  {
    OneShadow(env, st, ShadowOf(env, st));
    ParseMirrors(env, st, ShadowOf(env, st), line);
    OneShadow(env, Parse(env, st, line).0, ShParse(env, ShadowOf(env, st), line).0);
  }

  /** After any command line, whatever it feeds back, the invariant holds exactly when the line's shadow is
      clean. */
  lemma ModeBufferInvariant(env: Env, st: State, line: Line)
    requires BetweenLines(env, st) && InScope(line)
    ensures var after := Parse(env, st, line).0;
            && (after.halted || BetweenLines(env, after))
            && (Consistent(env, after) <==> Clean(ShParse(env, ShadowOf(env, st), line).0))
  {
    ShadowIsExact(env, st, line);
  }

  lemma ConsistentBetweenLines(env: Env, st: State)
    requires EnvOk(env) && !st.halted
    ensures Consistent(env, st) <==> BetweenLines(env, st) && Clean(ShadowOf(env, st))
  {}

  // ---- lines that feed nothing back ----

  /** "/" applied to the config hook itself. */
  ghost predicate SlashAtConfig(env: Env, cursor: Id, tokens: seq<Token>)
    requires EnvOk(env) && OnTree(env.tree, cursor) && tokens != []
  {
    var w := WalkFrom(env, cursor, tokens);
    w.status == COMPLETE && w.param == MODE && w.parent == CONFIG
  }

  /** A do-command that leaves its place: it is complete and ends in "?" or "/", or it fails an assertion. */
  ghost predicate EndsElsewhere(env: Env, tokens: seq<Token>)
    requires EnvOk(env) && tokens != []
  {
    var w := WalkFrom(env, DO_HOOK, tokens);
    w.status == HALT || (w.status == COMPLETE && w.param in {SUBOPTIONS, MODE})
  }

  /** The two ways a line that feeds nothing back goes wrong: "/" at the config hook, and a do-command that
      returns to a `no`, where only "?" can have left the cursor. */
  ghost predicate Breaks(env: Env, cursor: Id, tokens: seq<Token>)
    requires EnvOk(env) && InTree(env.tree, cursor)
  {
    match Classify(cursor, tokens)
    case Ordinary => SlashAtConfig(env, cursor, tokens)
    case DoCommand =>
      && Branch(env.tree, cursor) == CONFIG && env.tree[cursor].kind.NoCmd?
      && !EndsElsewhere(env, tokens[1..])
    case _ => false
  }

  lemma PlainInvoke(env: Env, cursor: Id, tainted: bool, param: Id, line: Line)
    requires EnvOk(env) && InScope(line) && line.reruns == [] && OnTree(env.tree, cursor) && param < |env.tree|
    ensures ShInvoke(env, cursor, tainted, param, line) == Shadow(cursor, true, tainted)
  {}

  /** Where the cursor and the checkpoint are after a complete command that feeds nothing back. */
  lemma PlainDispatch(env: Env, sh: Shadow, w: Walked, line: Line)
    requires EnvOk(env) && InScope(line) && line.reruns == [] && sh.Shadow? && OnTree(env.tree, sh.cursor)
    requires Placed(env.tree, w)
    ensures env.tree[SUBOPTIONS].hasCallback && env.tree[MODE].hasCallback && env.tree[CONFIG].hasCallback
    ensures w.status == COMPLETE ==>
              var after := ShDispatch(env, sh, w, line);
              if (w.param == SUBOPTIONS && w.parent == DO_HOOK) || (w.param == MODE && w.parent == ROOT) then
                after.Gone?
              else
                && after.Shadow?
                && after.cursor == (if w.param in {SUBOPTIONS, MODE, CONFIG} then EndOf(w) else sh.cursor)
                && after.tainted == (if w.param == MODE && w.parent == CONFIG then true
                                     else if w.param in {SUBOPTIONS, MODE, CONFIG} then sh.dirty else sh.tainted)
  {
    if w.status == COMPLETE {
      if w.param == MODE {
        PlainInvoke(env, w.parent, sh.dirty, w.parent, line);
        assert ShEnter(env, sh.dirty, w.parent, line).Shadow? ==> w.parent != ROOT;
      } else if w.param >= CONFIG {
        PlainInvoke(env, sh.cursor, sh.tainted, w.param, line);
      }
    }
  }

  lemma PlainBuild(env: Env, sh: Shadow, tokens: seq<Token>, line: Line)
    requires EnvOk(env) && InScope(line) && line.reruns == [] && sh.Shadow? && OnTree(env.tree, sh.cursor)
    requires tokens != []
    ensures var w, done := WalkFrom(env, sh.cursor, tokens), ShBuild(env, sh, tokens, line).0;
            done.Shadow? ==>
              if w.status == COMPLETE && w.param in {SUBOPTIONS, MODE, CONFIG} then
                done.cursor == EndOf(w) && done.tainted == (SlashAtConfig(env, sh.cursor, tokens) || sh.dirty)
              else done.cursor == sh.cursor && done.tainted == sh.tainted
    ensures ShBuild(env, sh, tokens, line).0.Gone? <==>
              var w := WalkFrom(env, sh.cursor, tokens);
              || w.status == HALT
              || (w.status == COMPLETE
                  && ((w.param == SUBOPTIONS && w.parent == DO_HOOK) || (w.param == MODE && w.parent == ROOT)))
  {
    PlainDispatch(env, sh, WalkFrom(env, sh.cursor, tokens), line);
  }

  /** What a do-command that feeds nothing back comes to, before the buffer is repaired. */
  lemma PlainHook(env: Env, tokens: seq<Token>, line: Line)
    requires EnvOk(env) && InScope(line) && line.reruns == [] && tokens != []
    ensures var done := ShBuild(env, Shadow(DO_HOOK, false, false), tokens, line).0;
            if EndsElsewhere(env, tokens) then
              done.Shadow? ==> !done.tainted && Branch(env.tree, done.cursor) in {SHOW, DEBUG, CLEAR}
            else done.Shadow? && done.cursor == DO_HOOK
  {
    EndBranch(env, DO_HOOK, tokens);
    PlainDispatch(env, Shadow(DO_HOOK, false, false), WalkFrom(env, DO_HOOK, tokens), line);
    assert Branch(env.tree, CONFIG) == CONFIG;
  }

  lemma PlainDo(env: Env, cursor: Id, tokens: seq<Token>, line: Line)
    requires EnvOk(env) && InScope(line) && line.reruns == [] && tokens != []
    requires InTree(env.tree, cursor) && Branch(env.tree, cursor) == CONFIG
    ensures var after := ShDo(env, cursor, tokens, line).0;
            if EndsElsewhere(env, tokens) then after.Shadow? ==> !after.tainted && after.cursor != ROOT
            else after == Shadow(cursor, env.tree[cursor].kind.NoCmd?, env.tree[cursor].kind.NoCmd?)
  {
    PlainHook(env, tokens, line);
  }

  /** A line that feeds nothing back keeps the invariant exactly unless it is one of the two. */
  lemma PlainLineKeepsInvariant(env: Env, st: State, line: Line)
    requires EnvOk(env) && Consistent(env, st) && !st.halted && InScope(line) && line.reruns == []
    ensures Consistent(env, Parse(env, st, line).0) <==> !Breaks(env, st.cursor, line.tokens)
  {
    ModeBufferInvariant(env, st, line);
    PlainShadow(env, ShadowOf(env, st), line);
  }

  lemma PlainShadow(env: Env, sh: Shadow, line: Line)
    requires EnvOk(env) && InScope(line) && line.reruns == []
    requires sh.Shadow? && Clean(sh) && CursorOk(env.tree, sh.cursor)
    ensures Clean(ShParse(env, sh, line).0) <==> !Breaks(env, sh.cursor, line.tokens)
  {
    var tokens := line.tokens;
    match Classify(sh.cursor, tokens) {
      case DoCommand =>
        if Branch(env.tree, sh.cursor) == CONFIG {
          PlainDo(env, sh.cursor, tokens[1..], line);
        }
      case Ordinary =>
        ShOrdinaryLine(env, sh, line);
        PlainBuild(env, sh, tokens, line);
      case CdUp => assert sh.cursor != ROOT ==> ParentOk(env.tree, sh.cursor);
      case Repeat => assert ShFeedBack(env, sh, line, OneLine, 0) == sh;
      case RunUnitTest => assert ShFeedBack(env, sh, line, Script, 0) == sh;
      case _ =>
    }
  }

  /** "/" at the config hook saves its own command code under the checkpoint: the mode's buffer is not empty. */
  lemma SlashAtConfigBreaks(env: Env, st: State, line: Line)
    requires EnvOk(env) && Consistent(env, st) && !st.halted && InScope(line)
    requires Classify(st.cursor, line.tokens) == Ordinary && SlashAtConfig(env, st.cursor, line.tokens)
    ensures var after := Parse(env, st, line).0;
            && !after.halted && after.cursor == CONFIG && Path(env, after) == []
            && after.tlvs == after.saved == [CodeTlv(env.tree[CONFIG].cmdCode)]
  {
    var t := env.tree;
    var w := WalkFrom(env, st.cursor, line.tokens);
    WalkCollectsPath(env, st.values, st.cursor, st.cursor, line.tokens);
    var collected := Collected(t, st, w.leaves);
    assert PathTlvs(t, collected.values, CONFIG) == PathTlvs(t, collected.values, ROOT) + [] == [];
    assert t[MODE].hasCallback;
    OrdinaryLine(env, st, line);
    CompleteCommand(env, st, line.tokens, line);
    assert Dispatch(env, collected, w, line) == EnterMode(env, collected, CONFIG, w.negated, line);
    assert EnterMode(env, collected, CONFIG, w.negated, line)
        == Mark(Collect(Mark(collected), CodeTlv(t[CONFIG].cmdCode)).(cursor := CONFIG));
  }

  /** "?" behind a `no` leaves the cursor there, and the next do-command that stays puts a stray TLV into the
      rebuilt buffer. */
  lemma DoBehindNoBreaks(env: Env, st: State, line: Line)
    requires EnvOk(env) && Consistent(env, st) && !st.halted && InScope(line) && line.reruns == []
    requires Breaks(env, st.cursor, line.tokens) && Classify(st.cursor, line.tokens) == DoCommand
    ensures var after := Parse(env, st, line).0;
            && !after.halted && after.cursor == st.cursor
            && after.tlvs == after.saved == Path(env, after) + [env.stray(st.cursor)]
  {
    var tokens := line.tokens[1..];
    BuildMirrors(env, AtHook(st), Shadow(DO_HOOK, false, false), tokens, line);
    PlainHook(env, tokens, line);
    DoLine(env, st, line);
  }

  // ---- whole runs ----

  ghost predicate Settled(env: Env, st: State) {
    EnvOk(env) && (st.halted || BetweenLines(env, st))
  }

  /** One more line of a run. */
  lemma RunStep(env: Env, st: State, lines: seq<Line>)
    requires Settled(env, st) && !st.halted && lines != [] && InScope(lines[0])
    ensures var next := Parse(env, st, lines[0]).0;
            && Settled(env, next) && Run(env, next, lines[1..]) == Run(env, st, lines)
            && ShRun(env, ShadowOf(env, next), lines[1..]) == ShRun(env, ShadowOf(env, st), lines)
  {
    ShadowIsExact(env, st, lines[0]);
  }

  lemma {:induction false} RunIsExact(env: Env, st: State, lines: seq<Line>)
    requires Settled(env, st)
    ensures var after := Run(env, st, lines);
            Settled(env, after) && ShadowOf(env, after) == ShRun(env, ShadowOf(env, st), lines)
    decreases |lines|
  {
    if lines != [] && !st.halted && InScope(lines[0]) {
      RunStep(env, st, lines);
      RunIsExact(env, Parse(env, st, lines[0]).0, lines[1..]);
    }
  }

  /** The invariant over whole runs from the start, whatever succeeds, fails halfway, switches modes, uses `do`
      or feeds lines back: it holds at the end exactly when the run's shadow is clean. */
  lemma EveryRunIsExact(env: Env, lines: seq<Line>)
    requires EnvOk(env)
    ensures Consistent(env, Run(env, INITIAL, lines)) <==> Clean(ShRun(env, START, lines))
  {
    assert Path(env, INITIAL) == [];
    RunIsExact(env, INITIAL, lines);
  }

  /** No line of the run feeds anything back or is one of the two that break the invariant. */
  ghost predicate NeverBreaks(env: Env, st: State, lines: seq<Line>)
    requires Settled(env, st)
    decreases |lines|
  {
    if lines == [] || st.halted || !InScope(lines[0]) then true
    else
      RunStep(env, st, lines);
      && lines[0].reruns == [] && !Breaks(env, st.cursor, lines[0].tokens)
      && NeverBreaks(env, Parse(env, st, lines[0]).0, lines[1..])
  }

  lemma {:induction false} PlainRunIsConsistent(env: Env, st: State, lines: seq<Line>)
    requires EnvOk(env) && Consistent(env, st) && NeverBreaks(env, st, lines)
    ensures Consistent(env, Run(env, st, lines))
    decreases |lines|
  {
    if lines != [] && !st.halted && InScope(lines[0]) {
      PlainLineKeepsInvariant(env, st, lines[0]);
      PlainRunIsConsistent(env, Parse(env, st, lines[0]).0, lines[1..]);
    }
  }
}
