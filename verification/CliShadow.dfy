/** The parser without its buffers: only whether they hold more than the cursor's path. The shadow of a command
    line is computed without buffer, checkpoint or value holders, and it is exact. */
module CliShadow {
  import opened CommandTree
  import opened CommandWalk
  import opened CliModel

  /** `dirty`: the live buffer holds more than the leaf TLVs of the cursor's path; `tainted`: the checkpoint
      does. `Gone` is a halted process. */
  datatype Shadow = Gone | Shadow(cursor: Id, dirty: bool, tainted: bool)

  const START := Shadow(ROOT, false, false)

  ghost predicate Placeable(t: Tree, sh: Shadow) {
    sh.Shadow? ==> OnTree(t, sh.cursor)
  }

  ghost predicate Moves(t: Tree, from: Id, after: Shadow) {
    after.Shadow? ==> OnTree(t, after.cursor) && (after.cursor == DO_HOOK ==> from == DO_HOOK)
  }

  /** Lines fed back start on the buffer as it is. */
  ghost function ShFeedBack(env: Env, sh: Shadow, line: Line, how: Rerun, left: nat): (r: Shadow)
    requires EnvOk(env) && InScope(line) && left <= Fed(line, how) && Placeable(env.tree, sh)
    ensures sh.Shadow? ==> Moves(env.tree, sh.cursor, r)
    ensures sh.Gone? ==> r.Gone?
    decreases line, left
  {
    if sh.Gone? || left == 0 then sh
    else
      var (next, status) := ShParse(env, sh, line.reruns[Fed(line, how) - left]);
      ShFeedBack(env, if how.Script? && status != COMPLETE then Gone else next, line, how, left - 1)
  }

  /** A handler runs on a buffer that ends in its command code. */
  ghost function ShInvoke(env: Env, cursor: Id, tainted: bool, param: Id, line: Line): (r: Shadow)
    requires EnvOk(env) && InScope(line) && OnTree(env.tree, cursor) && param < |env.tree|
    ensures Moves(env.tree, cursor, r)
    decreases line, |line.reruns| + 1
  {
    var how := env.tree[param].rerun;
    ShFeedBack(env, Shadow(cursor, true, tainted), line, how, Fed(line, how))
  }

  /** "/" at the config hook sets the checkpoint again behind the command code. */
  ghost function ShEnter(env: Env, dirty: bool, parent: Id, line: Line): (r: Shadow)
    requires EnvOk(env) && InScope(line) && InTree(env.tree, parent)
    ensures r.Shadow? ==> OnTree(env.tree, r.cursor) && r.cursor != DO_HOOK
    decreases line, |line.reruns| + 2
  {
    if parent == ROOT then Gone
    else if !env.tree[parent].hasCallback then Shadow(parent, true, dirty)
    else if parent == CONFIG then Shadow(CONFIG, true, true)
    else ShInvoke(env, parent, dirty, parent, line)
  }

  /** "?", "/" and `config` set the checkpoint to the buffer as the line found it, extended by the line's own
      leaves. */
  ghost function ShDispatch(env: Env, sh: Shadow, w: Walked, line: Line): (r: Shadow)
    requires EnvOk(env) && InScope(line) && sh.Shadow? && OnTree(env.tree, sh.cursor)
    requires Placed(env.tree, w) && w.status == COMPLETE
    ensures Moves(env.tree, sh.cursor, r)
    decreases line, |line.reruns| + 3
  {
    var t := env.tree;
    if w.param == SUBOPTIONS then
      if w.parent == DO_HOOK then Gone else Shadow(w.parent, sh.dirty || t[w.parent].hasDisplay, sh.dirty)
    else if w.param == MODE then ShEnter(env, sh.dirty, w.parent, line)
    else if w.param == EXPANSION then sh.(dirty := sh.dirty || w.leaves != [])
    else if w.param == CONFIG then Shadow(CONFIG, sh.dirty, sh.dirty)
    else ShInvoke(env, sh.cursor, sh.tainted, w.param, line)
  }

  ghost function ShBuild(env: Env, sh: Shadow, tokens: seq<Token>, line: Line): (r: (Shadow, Status))
    requires EnvOk(env) && InScope(line) && sh.Shadow? && OnTree(env.tree, sh.cursor) && tokens != []
    ensures Moves(env.tree, sh.cursor, r.0)
    decreases line, |line.reruns| + 4
  {
    var w := WalkFrom(env, sh.cursor, tokens);
    var collected := sh.(dirty := sh.dirty || w.leaves != []);
    if w.status == HALT then (Gone, HALT)
    else if w.status != COMPLETE then (collected, w.status)
    else if !env.tree[w.param].hasCallback then (collected, INCOMPLETE_COMMAND)
    else (ShDispatch(env, sh, w, line), COMPLETE)
  }

  /** A do-command starts clean. What is rebuilt afterwards is off exactly at a `no`. */
  ghost function ShDo(env: Env, cursor: Id, tokens: seq<Token>, line: Line): (r: (Shadow, Status))
    requires EnvOk(env) && InScope(line) && InTree(env.tree, cursor) && tokens != []
    ensures Moves(env.tree, cursor, r.0)
    decreases line, |line.reruns| + 5
  {
    var (done, status) := ShBuild(env, Shadow(DO_HOOK, false, false), tokens, line);
    if done.Gone? then (Gone, status)
    else if done.cursor == DO_HOOK then
      (Shadow(cursor, env.tree[cursor].kind.NoCmd?, env.tree[cursor].kind.NoCmd?), status)
    else (if done.cursor == ROOT || Branch(env.tree, done.cursor) == CONFIG then Gone else done, status)
  }

  /** `cd..` sets the checkpoint when it leaves a leaf. */
  ghost function ShUp(t: Tree, sh: Shadow): Shadow
    requires sh.Shadow? && sh.cursor < |t|
  {
    if sh.cursor == ROOT then sh
    else if sh.cursor == DO_HOOK then Gone
    else if t[sh.cursor].parent == ROOT then START
    else Shadow(t[sh.cursor].parent, sh.dirty, if t[sh.cursor].kind.Leaf? then sh.dirty else sh.tainted)
  }

  ghost function ShTop(t: Tree, sh: Shadow): Shadow
    requires sh.Shadow? && sh.cursor < |t|
  {
    if sh.cursor == ROOT then sh else if sh.cursor == DO_HOOK || t[sh.cursor].kind.NoCmd? then Gone else START
  }

  ghost function ShHandle(env: Env, sh: Shadow, line: Line): (r: (Shadow, Status))
    requires EnvOk(env) && InScope(line) && sh.Shadow? && OnTree(env.tree, sh.cursor) && line.tokens != []
    ensures Moves(env.tree, sh.cursor, r.0)
    decreases line, |line.reruns| + 6
  {
    match Classify(sh.cursor, line.tokens)
    case DoCommand =>
      if sh.cursor == DO_HOOK then (Gone, COMPLETE)
      else if Branch(env.tree, sh.cursor) == CONFIG then ShDo(env, sh.cursor, line.tokens[1..], line)
      else (sh, COMPLETE)
    case Repeat => (ShFeedBack(env, sh, line, OneLine, Fed(line, OneLine)), COMPLETE)
    case CdUp =>
      assert sh.cursor >= CONFIG ==> ParentOk(env.tree, sh.cursor);
      (ShUp(env.tree, sh), COMPLETE)
    case CdTop => (ShTop(env.tree, sh), COMPLETE)
    case ClearScreen => (sh, COMPLETE)
    case RunUnitTest => (ShFeedBack(env, sh, line, Script, Fed(line, Script)), COMPLETE)
    case Ordinary => ShBuild(env, sh, line.tokens, line)
  }

  /** Restoring the checkpoint makes the live buffer as right or wrong as the checkpoint is. */
  ghost function ShFinish(sh: Shadow): Shadow {
    if sh.Gone? then Gone else if sh.cursor == ROOT then START else sh.(dirty := sh.tainted)
  }

  ghost function ShParse(env: Env, sh: Shadow, line: Line): (r: (Shadow, Status))
    requires EnvOk(env) && InScope(line) && sh.Shadow? && OnTree(env.tree, sh.cursor)
    ensures Moves(env.tree, sh.cursor, r.0)
    decreases line, |line.reruns| + 7
  {
    if line.tokens == [] then (sh, INCOMPLETE_COMMAND)
    else
      var (done, status) := ShHandle(env, sh, line);
      (ShFinish(done), status)
  }

  ghost function ShRun(env: Env, sh: Shadow, lines: seq<Line>): Shadow
    requires EnvOk(env) && Placeable(env.tree, sh)
    decreases |lines|
  {
    if lines == [] || sh.Gone? || !InScope(lines[0]) then sh
    else ShRun(env, ShParse(env, sh, lines[0]).0, lines[1..])
  }

  // ---- the cases spelled out ----

  lemma ShFeedBackNext(env: Env, sh: Shadow, line: Line, how: Rerun, left: nat)
    requires EnvOk(env) && InScope(line) && 0 < left <= Fed(line, how) && sh.Shadow? && OnTree(env.tree, sh.cursor)
    ensures var (next, status) := ShParse(env, sh, line.reruns[Fed(line, how) - left]);
            ShFeedBack(env, sh, line, how, left)
            == ShFeedBack(env, if how.Script? && status != COMPLETE then Gone else next, line, how, left - 1)
  {}

  lemma ShOrdinaryLine(env: Env, sh: Shadow, line: Line)
    requires EnvOk(env) && InScope(line) && sh.Shadow? && OnTree(env.tree, sh.cursor)
    requires Classify(sh.cursor, line.tokens) == Ordinary
    ensures var (done, status) := ShBuild(env, sh, line.tokens, line);
            ShParse(env, sh, line) == (ShFinish(done), status)
  {
    assert ShHandle(env, sh, line) == ShBuild(env, sh, line.tokens, line);
  }

  lemma ShCompleteCommand(env: Env, sh: Shadow, tokens: seq<Token>, line: Line)
    requires EnvOk(env) && InScope(line) && sh.Shadow? && OnTree(env.tree, sh.cursor) && tokens != []
    requires var w := WalkFrom(env, sh.cursor, tokens); w.status == COMPLETE && env.tree[w.param].hasCallback
    ensures ShBuild(env, sh, tokens, line) == (ShDispatch(env, sh, WalkFrom(env, sh.cursor, tokens), line), COMPLETE)
  {}

  // ---- states and their shadows ----

  /** Where the cursor may rest: nothing is ever entered in the `repeat` branch. */
  ghost predicate Resting(t: Tree, n: Id) {
    OnTree(t, n) && Branch(t, n) != REPEAT
  }

  /** The reference for the buffer: the leaf TLVs of the path to the cursor. */
  ghost function Path(env: Env, st: State): seq<Tlv> {
    PathTlvs(env.tree, st.values, st.cursor)
  }

  predicate Off(buffer: seq<Tlv>, path: seq<Tlv>, more: bool) {
    if more then |buffer| > |path| else buffer == path
  }

  ghost predicate Mirrors(env: Env, st: State, sh: Shadow) {
    if st.halted then sh.Gone?
    else
      && sh.Shadow? && sh.cursor == st.cursor && Resting(env.tree, st.cursor)
      && Off(st.tlvs, Path(env, st), sh.dirty) && Off(st.saved, Path(env, st), sh.tainted)
  }

  /** Every state a run can reach: each buffer is the cursor's path or longer. */
  ghost predicate Sane(env: Env, st: State) {
    !st.halted ==>
      && Resting(env.tree, st.cursor)
      && (st.tlvs == Path(env, st) || |st.tlvs| > |Path(env, st)|)
      && (st.saved == Path(env, st) || |st.saved| > |Path(env, st)|)
  }

  ghost function ShadowOf(env: Env, st: State): Shadow {
    if st.halted then Gone else Shadow(st.cursor, st.tlvs != Path(env, st), st.saved != Path(env, st))
  }

  /** A sane state has one shadow. */
  lemma OneShadow(env: Env, st: State, sh: Shadow)
    ensures Mirrors(env, st, sh) <==> Sane(env, st) && sh == ShadowOf(env, st)
  {}

  // ---- one command ----

  /** Leaves written by a walk are below its start, so the start's own path is untouched. */
  lemma WalkKeepsStartPath(env: Env, values: Values, cursor: Id, tokens: seq<Token>)
    requires EnvOk(env) && OnTree(env.tree, cursor) && tokens != []
    ensures var w := WalkFrom(env, cursor, tokens);
            PathTlvs(env.tree, Store(values, w.leaves), cursor) == PathTlvs(env.tree, values, cursor)
  {
    var t := env.tree;
    var w := WalkFrom(env, cursor, tokens);
    if cursor >= CONFIG {
      WalkInBranch(env, cursor, cursor, tokens);
    } else {
      var b := WalkFromTop(env, cursor, cursor, tokens);
    }
    AnchorPath(t, values, cursor);
    AnchorPath(t, Store(values, w.leaves), cursor);
    StoreBelowPath(t, values, w.leaves, Anchor(t, cursor));
  }

  /** A first word that would have been taken for `repeat` never gets here. */
  ghost predicate Walkable(cursor: Id, tokens: seq<Token>) {
    tokens != [] && (cursor == ROOT ==> !(tokens[0].text <= "repeat"))
  }

  /** The branch a complete command ends in: never `repeat`'s; config's when a `no` was passed; and the cursor's
      own unless it was typed at the root. */
  lemma EndBranch(env: Env, cursor: Id, tokens: seq<Token>)
    requires EnvOk(env) && Resting(env.tree, cursor) && Walkable(cursor, tokens)
    ensures var w := WalkFrom(env, cursor, tokens);
            w.status == COMPLETE ==>
              var b := Branch(env.tree, EndOf(w));
              && Resting(env.tree, EndOf(w))
              && (w.negated ==> b == CONFIG)
              && (cursor == DO_HOOK ==> EndOf(w) == DO_HOOK || b in {SHOW, DEBUG, CLEAR})
              && (EndOf(w) == DO_HOOK ==> cursor == DO_HOOK)
              && (cursor >= CONFIG ==> b == Branch(env.tree, cursor))
  {
    if cursor >= CONFIG {
      WalkInBranch(env, cursor, cursor, tokens);
    } else {
      var b := WalkFromTop(env, cursor, cursor, tokens);
    }
  }

  /** The states in the middle of a command, once its leaves are collected: measured by the path to where it
      started, and by the path to where it ends. */
  lemma CollectedMirrors(env: Env, st: State, sh: Shadow, tokens: seq<Token>)
    requires EnvOk(env) && !st.halted && Mirrors(env, st, sh) && Walkable(st.cursor, tokens)
    ensures var w := WalkFrom(env, st.cursor, tokens);
            var collected := Collected(env.tree, st, w.leaves);
            && Mirrors(env, collected, sh.(dirty := sh.dirty || w.leaves != []))
            && (w.status == COMPLETE ==>
                  && Off(collected.tlvs, PathTlvs(env.tree, collected.values, EndOf(w)), sh.dirty)
                  && Resting(env.tree, EndOf(w)))
  {
    var t := env.tree;
    var w := WalkFrom(env, st.cursor, tokens);
    WalkKeepsStartPath(env, st.values, st.cursor, tokens);
    LeafTlvsLength(t, w.leaves);
    if w.status == COMPLETE {
      WalkCollectsPath(env, st.values, st.cursor, st.cursor, tokens);
      EndBranch(env, st.cursor, tokens);
    }
  }

  lemma {:induction false} LeafTlvsLength(t: Tree, leaves: seq<(Id, string)>)
    requires LeavesOk(t, leaves)
    ensures |LeafTlvs(t, leaves)| == |leaves|
    decreases |leaves|
  {
    if leaves != [] {
      LeafTlvsLength(t, leaves[1..]);
    }
  }
}
