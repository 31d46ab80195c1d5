/** The shadow is exact: it follows the parser step by step, through everything a handler feeds back. */
module CliRefinement {
  import opened CommandTree
  import opened CommandWalk
  import opened CliModel
  import opened CliShadow

  lemma FeedBackMirrors(env: Env, st: State, sh: Shadow, line: Line, how: Rerun, left: nat)
    requires EnvOk(env) && InScope(line) && left <= Fed(line, how) && Mirrors(env, st, sh)
    ensures Mirrors(env, FeedBack(env, st, line, how, left), ShFeedBack(env, sh, line, how, left))
    decreases line, left
  {
    if !st.halted && left > 0 {
      var again := line.reruns[Fed(line, how) - left];
      FeedBackNext(env, st, line, how, left);
      ShFeedBackNext(env, sh, line, how, left);
      ParseMirrors(env, st, sh, again);
      var (next, status) := Parse(env, st, again);
      var (shNext, shStatus) := ShParse(env, sh, again);
      FeedBackMirrors(env, next.(halted := next.halted || (how.Script? && status != COMPLETE)),
                      if how.Script? && status != COMPLETE then Gone else shNext, line, how, left - 1);
    }
  }

  lemma InvokeMirrors(env: Env, st: State, tainted: bool, param: Id, negated: bool, line: Line)
    requires EnvOk(env) && InScope(line) && !st.halted && param < |env.tree|
    requires Mirrors(env, st, Shadow(st.cursor, true, tainted))
    ensures Mirrors(env, Invoke(env, st, param, negated, line), ShInvoke(env, st.cursor, tainted, param, line))
    decreases line, |line.reruns| + 1
  {
    var how := env.tree[param].rerun;
    var called := Called(env.tree, st, param, negated);
    FeedBackMirrors(env, called, Shadow(st.cursor, true, tainted), line, how, Fed(line, how));
  }

  lemma EnterMirrors(env: Env, st: State, dirty: bool, parent: Id, negated: bool, line: Line)
    requires EnvOk(env) && InScope(line) && !st.halted && Resting(env.tree, parent) && parent != DO_HOOK
    requires Off(st.tlvs, PathTlvs(env.tree, st.values, parent), dirty)
    ensures Mirrors(env, EnterMode(env, st, parent, negated, line), ShEnter(env, dirty, parent, line))
    decreases line, |line.reruns| + 2
  {
    if parent != ROOT {
      var entered := Collect(Mark(st), CodeTlv(env.tree[parent].cmdCode)).(cursor := parent);
      assert Path(env, entered) == PathTlvs(env.tree, st.values, parent);
      if env.tree[parent].hasCallback && parent != CONFIG {
        InvokeMirrors(env, entered, dirty, parent, negated, line);
      }
    }
  }

  lemma RunMirrors(env: Env, st: State, dirty: bool, tainted: bool, param: Id, negated: bool, line: Line)
    requires EnvOk(env) && InScope(line) && !st.halted && param < |env.tree| && param != CONFIG
    requires Mirrors(env, st, Shadow(st.cursor, dirty, tainted)) && Branch(env.tree, param) != REPEAT
    ensures Mirrors(env, RunCommand(env, st, param, negated, line), ShInvoke(env, st.cursor, tainted, param, line))
    decreases line, |line.reruns| + 2
  {
    InvokeMirrors(env, Collect(st, CodeTlv(env.tree[param].cmdCode)), tainted, param, negated, line);
  }

  lemma DispatchMirrors(env: Env, st: State, sh: Shadow, w: Walked, line: Line)
    requires EnvOk(env) && InScope(line) && !st.halted && sh.Shadow? && Placed(env.tree, w) && w.status == COMPLETE
    requires Mirrors(env, st, sh.(dirty := sh.dirty || w.leaves != []))
    requires Off(st.tlvs, PathTlvs(env.tree, st.values, EndOf(w)), sh.dirty) && Resting(env.tree, EndOf(w))
    ensures Mirrors(env, Dispatch(env, st, w, line), ShDispatch(env, sh, w, line))
    decreases line, |line.reruns| + 3
  {
    if w.param == SUBOPTIONS {
    } else if w.param == MODE {
      EnterMirrors(env, st, sh.dirty, w.parent, w.negated, line);
    } else if w.param == EXPANSION {
    } else if w.param == CONFIG {
      assert RunCommand(env, st, CONFIG, w.negated, line) == Mark(st.(cursor := CONFIG));
    } else {
      RunMirrors(env, st, sh.dirty || w.leaves != [], sh.tainted, w.param, w.negated, line);
    }
  }

  lemma BuildMirrors(env: Env, st: State, sh: Shadow, tokens: seq<Token>, line: Line)
    requires EnvOk(env) && InScope(line) && !st.halted && Mirrors(env, st, sh) && Walkable(st.cursor, tokens)
    ensures Mirrors(env, Build(env, st, tokens, line).0, ShBuild(env, sh, tokens, line).0)
    ensures Build(env, st, tokens, line).1 == ShBuild(env, sh, tokens, line).1
    decreases line, |line.reruns| + 4
  {
    var w := WalkFrom(env, st.cursor, tokens);
    CollectedMirrors(env, st, sh, tokens);
    if w.status == COMPLETE && env.tree[w.param].hasCallback {
      DispatchMirrors(env, Collected(env.tree, st, w.leaves), sh, w, line);
    }
  }

  lemma DoMirrors(env: Env, st: State, tokens: seq<Token>, line: Line)
    requires EnvOk(env) && InScope(line) && !st.halted && Resting(env.tree, st.cursor) && tokens != []
    requires InTree(env.tree, st.cursor)
    ensures Mirrors(env, RunDo(env, st, tokens, line).0, ShDo(env, st.cursor, tokens, line).0)
    ensures RunDo(env, st, tokens, line).1 == ShDo(env, st.cursor, tokens, line).1
    decreases line, |line.reruns| + 5
  {
    BuildMirrors(env, AtHook(st), Shadow(DO_HOOK, false, false), tokens, line);
  }

  lemma UpMirrors(env: Env, st: State, sh: Shadow)
    requires EnvOk(env) && !st.halted && Mirrors(env, st, sh)
    ensures Mirrors(env, OneUp(env.tree, st), ShUp(env.tree, sh))
  {
    var t := env.tree;
    if st.cursor >= CONFIG {
      assert ParentOk(t, st.cursor);
      BranchStep(t, st.cursor);
      var parent := t[st.cursor].parent;
      StoreBelowPath(t, st.values, [(st.cursor, "")], parent);
      TakenIs(t, st.values, st.cursor, "");
    }
  }

  lemma HandleMirrors(env: Env, st: State, sh: Shadow, line: Line)
    requires EnvOk(env) && InScope(line) && !st.halted && Mirrors(env, st, sh) && line.tokens != []
    ensures Mirrors(env, Handle(env, st, line).0, ShHandle(env, sh, line).0)
    ensures Handle(env, st, line).1 == ShHandle(env, sh, line).1
    decreases line, |line.reruns| + 6
  {
    match Classify(st.cursor, line.tokens) {
      case DoCommand =>
        if st.cursor != DO_HOOK && Branch(env.tree, st.cursor) == CONFIG {
          DoMirrors(env, st, line.tokens[1..], line);
        }
      case Repeat => FeedBackMirrors(env, st, sh, line, OneLine, Fed(line, OneLine));
      case CdUp => UpMirrors(env, st, sh);
      case CdTop =>
      case ClearScreen =>
      case RunUnitTest => FeedBackMirrors(env, st, sh, line, Script, Fed(line, Script));
      case Ordinary => BuildMirrors(env, st, sh, line.tokens, line);
    }
  }

  lemma ParseMirrors(env: Env, st: State, sh: Shadow, line: Line)
    requires EnvOk(env) && InScope(line) && !st.halted && Mirrors(env, st, sh)
    ensures Mirrors(env, Parse(env, st, line).0, ShParse(env, sh, line).0)
    ensures Parse(env, st, line).1 == ShParse(env, sh, line).1
    decreases line, |line.reruns| + 7
  {
    if line.tokens != [] {
      HandleMirrors(env, st, sh, line);
      FinishMirrors(env, Handle(env, st, line).0, ShHandle(env, sh, line).0);
    }
  }

  lemma FinishMirrors(env: Env, st: State, sh: Shadow)
    requires EnvOk(env) && Mirrors(env, st, sh)
    ensures Mirrors(env, Finish(st), ShFinish(sh))
  {}
}
