/** One command line as a step of the parser's state: cursor, TLV buffer with its checkpoint, leaf value
    holders, and the application handlers invoked so far (parse_input_cmd, CommandParser/parser.c). */
module CliModel {
  import opened CommandTree
  import opened CommandWalk

  datatype OpMode = CONFIG_DISABLE | CONFIG_ENABLE | OPERATIONAL

  /** An application handler's view of the command that invoked it. */
  datatype Call = Call(param: Id, tlvs: seq<Tlv>, mode: OpMode)

  /** `tlvs` is the live buffer, `saved` what the checkpoint would restore. A halted process ran into a failed
      assertion or a crash. */
  datatype State = State(
    cursor: Id, tlvs: seq<Tlv>, saved: seq<Tlv>, values: Values, calls: seq<Call>, halted: bool)

  const INITIAL := State(ROOT, [], [], map[], [], false)

  /** A command line: its words, and the lines that are fed back to the parser while it is carried out, from
      the history file or from a test script. They may feed back lines in their turn. */
  datatype Line = Line(tokens: seq<Token>, reruns: seq<Line>)

  function Decimal(n: int): string
    decreases if n < 0 then 1 - n else n
  {
    if n < 0 then "-" + Decimal(-n)
    else if n < 10 then [Digit(n)]
    else Decimal(n / 10) + [Digit(n % 10)]
  }

  function Digit(n: int): char
    requires 0 <= n < 10
  {
    ('0' as int + n) as char
  }

  /** The TLV that carries a command's code, appended last. */
  function CodeTlv(code: int): Tlv {
    Tlv(INT, "CMDCODE", Decimal(code))
  }

  const DUMMY := Tlv(INT, "", "")

  function Collect(st: State, tlv: Tlv): State {
    st.(tlvs := st.tlvs + [tlv])
  }

  function Mark(st: State): State {
    st.(saved := st.tlvs)
  }

  function Restore(st: State): State {
    st.(tlvs := st.saved)
  }

  function Reset(st: State): State {
    st.(tlvs := [], saved := [])
  }

  function ModeOf(t: Tree, param: Id, negated: bool): OpMode {
    if Branch(t, param) == CONFIG then (if negated then CONFIG_DISABLE else CONFIG_ENABLE) else OPERATIONAL
  }

  /** A handler is recorded with what it is shown. */
  function Called(t: Tree, st: State, param: Id, negated: bool): State {
    st.(calls := st.calls + [Call(param, st.tlvs, ModeOf(t, param, negated))])
  }

  /** The state once a walk's leaves are in the buffer and in their value holders. */
  function Collected(t: Tree, st: State, leaves: seq<(Id, string)>): State
    requires forall i | 0 <= i < |leaves| :: leaves[i].0 < |t|
  {
    st.(tlvs := st.tlvs + LeafTlvs(t, leaves), values := Store(st.values, leaves))
  }

  /** go_one_level_up_cmd_tree. The do-hook has no parent to go to. */
  function OneUp(t: Tree, st: State): State
    requires st.cursor < |t|
  {
    if st.cursor == ROOT then st
    else if st.cursor == DO_HOOK then st.(halted := true)
    else
      var left :=
        if t[st.cursor].kind.Leaf? then
          var shorter := if st.tlvs == [] then [] else st.tlvs[..|st.tlvs| - 1];
          Mark(st.(tlvs := shorter, values := st.values[st.cursor := ""]))
        else st;
      var up := left.(cursor := t[st.cursor].parent);
      if up.cursor == ROOT then Reset(up) else up
  }

  /** The value holders once every leaf on the path from the root to `n` is cleared. */
  function Cleared(t: Tree, values: Values, n: Id): Values
    decreases n
  {
    if !(CONFIG <= n < |t|) || t[n].parent >= n then values
    else Cleared(t, if t[n].kind.Cmd? then values else values[n := ""], t[n].parent)
  }

  /** goto_top_of_cmd_tree. It clears a value holder the `no` it may start from does not have, and cannot
      climb from the do-hook. */
  function ToTop(t: Tree, st: State): State
    requires st.cursor < |t|
  {
    if st.cursor == ROOT then st
    else if st.cursor == DO_HOOK || t[st.cursor].kind.NoCmd? then st.(halted := true)
    else Reset(st).(cursor := ROOT, values := Cleared(t, st.values, st.cursor))
  }

  /** The last lines of parse_input_cmd: back to the checkpoint in a mode, back to nothing at the root. */
  function Finish(st: State): State {
    if st.halted then st else if st.cursor != ROOT then Restore(st) else Reset(st)
  }

  /** build_cmd_tree_leaves_data: the leaf TLVs of the path, and one more for a `no` at its end, which is
      taken for a leaf. */
  ghost function Rebuilt(env: Env, values: Values, n: Id): seq<Tlv>
    requires n < |env.tree|
  {
    PathTlvs(env.tree, values, n) + if env.tree[n].kind.NoCmd? then [env.stray(n)] else []
  }

  // ---- a command line ----

  /** The first word decides who handles a command line; the order of the tests matters. */
  datatype Handling =
    | Nothing | DoCommand | Repeat | CdUp | CdTop | ClearScreen | RunUnitTest | LoadFile | Ordinary

  function Classify(cursor: Id, tokens: seq<Token>): Handling {
    if tokens == [] then Nothing
    else
      var first := tokens[0].text;
      if |tokens| > 1 && "do" <= first && cursor != ROOT then DoCommand
      else if first <= "repeat" then Repeat
      else if "cd.." <= first && |tokens| == 1 then CdUp
      else if "cd" <= first && |tokens| == 1 then CdTop
      else if "cls" <= first && |tokens| == 1 then ClearScreen
      else if |tokens| == 4 && "run" <= first && "ut" <= tokens[1].text then RunUnitTest
      else if LoadsFile(tokens) then LoadFile
      else Ordinary
  }

  predicate LoadsFile(tokens: seq<Token>) {
    |tokens| == 3 && "config" <= tokens[0].text && "load" <= tokens[1].text
  }

  /** The command lines this model covers: everything but `config load`, which reads lines from a file past
      parse_input_cmd. */
  predicate InScope(line: Line) {
    !LoadsFile(line.tokens) && forall i | 0 <= i < |line.reruns| :: InScope(line.reruns[i])
  }

  /** How many of its lines a handler feeds back. */
  function Fed(line: Line, how: Rerun): (n: nat)
    ensures n <= |line.reruns|
  {
    match how
    case Inert => 0
    case OneLine => if line.reruns == [] then 0 else 1
    case Script => |line.reruns|
  }

  /** Handlers stay invoked, the cursor stays on the tree, and it never gets back to the do-hook. */
  ghost predicate Follows(t: Tree, before: State, after: State) {
    && before.calls <= after.calls
    && (!after.halted ==> OnTree(t, after.cursor) && (after.cursor == DO_HOOK ==> before.cursor == DO_HOOK))
  }

  /** The last `left` of the lines fed back, each carried out on the buffer as the one before left it. A test
      script asserts that every line completes. */
  ghost function FeedBack(env: Env, st: State, line: Line, how: Rerun, left: nat): (r: State)
    requires EnvOk(env) && InScope(line) && left <= Fed(line, how)
    requires !st.halted ==> OnTree(env.tree, st.cursor)
    ensures Follows(env.tree, st, r)
    decreases line, left
  {
    if st.halted || left == 0 then st
    else
      var (next, status) := Parse(env, st, line.reruns[Fed(line, how) - left]);
      FeedBack(env, next.(halted := next.halted || (how.Script? && status != COMPLETE)), line, how, left - 1)
  }

  /** A handler runs: it sees the buffer, and may feed lines back before it returns. */
  ghost function Invoke(env: Env, st: State, param: Id, negated: bool, line: Line): (r: State)
    requires EnvOk(env) && InScope(line) && !st.halted && OnTree(env.tree, st.cursor) && param < |env.tree|
    ensures Follows(env.tree, st, r)
    decreases line, |line.reruns| + 1
  {
    var how := env.tree[param].rerun;
    FeedBack(env, Called(env.tree, st, param, negated), line, how, Fed(line, how))
  }

  /** "?": the sub-options are displayed and the cursor moves to the param they were asked for. Building the
      console name then dereferences the do-hook's missing parent. */
  function AskSuboptions(t: Tree, st: State, parent: Id): State
    requires parent < |t|
  {
    var marked := Mark(st);
    var shown := if t[parent].hasDisplay then Collect(marked, DUMMY) else marked;
    shown.(cursor := parent, halted := parent == DO_HOOK)
  }

  /** "/": the checkpoint is set before the code is appended, and the param's handler runs with both. The
      config hook's own handler sets the checkpoint again. At the root the branch lookup asserts. */
  ghost function EnterMode(env: Env, st: State, parent: Id, negated: bool, line: Line): (r: State)
    requires EnvOk(env) && InScope(line) && !st.halted && InTree(env.tree, parent)
    ensures Follows(env.tree, st, r)
    decreases line, |line.reruns| + 2
  {
    var t := env.tree;
    if parent == ROOT then st.(halted := true)
    else
      var entered := Collect(Mark(st), CodeTlv(t[parent].cmdCode)).(cursor := parent);
      if !t[parent].hasCallback then entered
      else if parent == CONFIG then Mark(entered)
      else Invoke(env, entered, parent, negated, line)
  }

  /** An ordinary command. `config` alone enters config mode and is given no code. */
  ghost function RunCommand(env: Env, st: State, param: Id, negated: bool, line: Line): (r: State)
    requires EnvOk(env) && InScope(line) && !st.halted && OnTree(env.tree, st.cursor) && param < |env.tree|
    ensures Follows(env.tree, st, r)
    decreases line, |line.reruns| + 2
  {
    var t := env.tree;
    if param == CONFIG then Mark(st.(cursor := CONFIG))
    else
      var coded := if Branch(t, param) == REPEAT then st else Collect(st, CodeTlv(t[param].cmdCode));
      Invoke(env, coded, param, negated, line)
  }

  ghost function Dispatch(env: Env, st: State, w: Walked, line: Line): (r: State)
    requires EnvOk(env) && InScope(line) && !st.halted && OnTree(env.tree, st.cursor)
    requires Placed(env.tree, w) && w.status == COMPLETE
    ensures Follows(env.tree, st, r)
    decreases line, |line.reruns| + 3
  {
    if w.param == SUBOPTIONS then AskSuboptions(env.tree, st, w.parent)
    else if w.param == MODE then EnterMode(env, st, w.parent, w.negated, line)
    else if w.param == EXPANSION then st
    else RunCommand(env, st, w.param, w.negated, line)
  }

  /** build_tlv_buffer */
  ghost function Build(env: Env, st: State, tokens: seq<Token>, line: Line): (r: (State, Status))
    requires EnvOk(env) && InScope(line) && !st.halted && OnTree(env.tree, st.cursor) && tokens != []
    ensures Follows(env.tree, st, r.0)
    decreases line, |line.reruns| + 4
  {
    var w := WalkFrom(env, st.cursor, tokens);
    var collected := Collected(env.tree, st, w.leaves);
    if w.status == HALT then (collected.(halted := true), HALT)
    else if w.status != COMPLETE then (collected, w.status)
    else if !env.tree[w.param].hasCallback then (collected, INCOMPLETE_COMMAND)
    else (Dispatch(env, collected, w, line), COMPLETE)
  }

  /** The do-hook with an empty buffer, where a do-command starts. */
  function AtHook(st: State): State {
    Reset(st).(cursor := DO_HOOK)
  }

  /** What follows a do-command: the config path's TLVs are rebuilt from the leaves' value holders, unless the
      command entered a mode elsewhere. The lookup of that mode's branch asserts at the root, and the branch is
      asserted not to be config's. */
  ghost function BackFromHook(env: Env, done: State, cursor: Id): State
    requires cursor < |env.tree|
  {
    if done.cursor != DO_HOOK then done.(halted := done.cursor == ROOT || Branch(env.tree, done.cursor) == CONFIG)
    else
      var rebuilt := Rebuilt(env, done.values, cursor);
      done.(cursor := cursor, tlvs := rebuilt, saved := rebuilt)
  }

  /** "do": the command runs from the do-hook on an empty buffer. */
  ghost function RunDo(env: Env, st: State, tokens: seq<Token>, line: Line): (r: (State, Status))
    requires EnvOk(env) && InScope(line) && !st.halted && InTree(env.tree, st.cursor) && tokens != []
    ensures Follows(env.tree, st, r.0)
    decreases line, |line.reruns| + 5
  {
    var (done, status) := Build(env, AtHook(st), tokens, line);
    (if done.halted then done else BackFromHook(env, done, st.cursor), status)
  }

  /** The tests and branches of parse_input_cmd, up to its last lines. From the do-hook, where only a line that
      is fed back can start, the branch lookup of `do` runs off the tree. */
  ghost function Handle(env: Env, st: State, line: Line): (r: (State, Status))
    requires EnvOk(env) && InScope(line) && !st.halted && OnTree(env.tree, st.cursor) && line.tokens != []
    ensures Follows(env.tree, st, r.0)
    decreases line, |line.reruns| + 6
  {
    match Classify(st.cursor, line.tokens)
    case DoCommand =>
      if st.cursor == DO_HOOK then (st.(halted := true), COMPLETE)
      else if Branch(env.tree, st.cursor) == CONFIG then RunDo(env, st, line.tokens[1..], line)
      else (st, COMPLETE)
    case Repeat => (FeedBack(env, st, line, OneLine, Fed(line, OneLine)), COMPLETE)
    case CdUp => UpIsOnTree(env.tree, st); (OneUp(env.tree, st), COMPLETE)
    case CdTop => (ToTop(env.tree, st), COMPLETE)
    case ClearScreen => (st, COMPLETE)
    case RunUnitTest => (FeedBack(env, st, line, Script, Fed(line, Script)), COMPLETE)
    case Ordinary => Build(env, st, line.tokens, line)
  }

  lemma UpIsOnTree(t: Tree, st: State)
    requires WellFormed(t) && OnTree(t, st.cursor)
    ensures Follows(t, st, OneUp(t, st))
  {
    assert st.cursor >= CONFIG ==> ParentOk(t, st.cursor);
  }

  /** parse_input_cmd. A line without words is not even finished. */
  ghost function Parse(env: Env, st: State, line: Line): (r: (State, Status))
    requires EnvOk(env) && InScope(line) && !st.halted && OnTree(env.tree, st.cursor)
    ensures Follows(env.tree, st, r.0)
    decreases line, |line.reruns| + 7
  {
    if line.tokens == [] then (st, INCOMPLETE_COMMAND)
    else
      var (done, status) := Handle(env, st, line);
      (Finish(done), status)
  }

  // ---- the cases spelled out ----

  lemma FeedBackNext(env: Env, st: State, line: Line, how: Rerun, left: nat)
    requires EnvOk(env) && InScope(line) && 0 < left <= Fed(line, how) && !st.halted && OnTree(env.tree, st.cursor)
    ensures var (next, status) := Parse(env, st, line.reruns[Fed(line, how) - left]);
            FeedBack(env, st, line, how, left)
            == FeedBack(env, next.(halted := next.halted || (how.Script? && status != COMPLETE)), line, how, left - 1)
  {}

  lemma HandleCases(env: Env, st: State, line: Line)
    requires EnvOk(env) && InScope(line) && !st.halted && OnTree(env.tree, st.cursor) && line.tokens != []
    ensures match Classify(st.cursor, line.tokens)
            case Repeat => Handle(env, st, line) == (FeedBack(env, st, line, OneLine, Fed(line, OneLine)), COMPLETE)
            case CdUp => Handle(env, st, line) == (OneUp(env.tree, st), COMPLETE)
            case CdTop => Handle(env, st, line) == (ToTop(env.tree, st), COMPLETE)
            case ClearScreen => Handle(env, st, line) == (st, COMPLETE)
            case RunUnitTest => Handle(env, st, line) == (FeedBack(env, st, line, Script, Fed(line, Script)), COMPLETE)
            case Ordinary => Handle(env, st, line) == Build(env, st, line.tokens, line)
            case _ => true
  {}

  lemma OrdinaryLine(env: Env, st: State, line: Line)
    requires EnvOk(env) && InScope(line) && !st.halted && OnTree(env.tree, st.cursor)
    requires Classify(st.cursor, line.tokens) == Ordinary
    ensures var (done, status) := Build(env, st, line.tokens, line);
            Parse(env, st, line) == (Finish(done), status)
  {
    assert Handle(env, st, line) == Build(env, st, line.tokens, line);
  }

  lemma DoLine(env: Env, st: State, line: Line)
    requires EnvOk(env) && InScope(line) && !st.halted && InTree(env.tree, st.cursor)
    requires Classify(st.cursor, line.tokens) == DoCommand && Branch(env.tree, st.cursor) == CONFIG
    ensures var (done, status) := RunDo(env, st, line.tokens[1..], line);
            Parse(env, st, line) == (Finish(done), status)
  {
    assert Handle(env, st, line) == RunDo(env, st, line.tokens[1..], line);
  }

  lemma NothingFedBack(env: Env, st: State, param: Id, negated: bool, line: Line)
    requires EnvOk(env) && InScope(line) && !st.halted && OnTree(env.tree, st.cursor) && param < |env.tree|
    requires Fed(line, env.tree[param].rerun) == 0
    ensures Invoke(env, st, param, negated, line) == Called(env.tree, st, param, negated)
  {}

  lemma EnterCases(env: Env, st: State, parent: Id, negated: bool, line: Line)
    requires EnvOk(env) && InScope(line) && !st.halted && InTree(env.tree, parent) && parent != ROOT
    ensures var entered := Collect(Mark(st), CodeTlv(env.tree[parent].cmdCode)).(cursor := parent);
            var how := env.tree[parent].rerun;
            EnterMode(env, st, parent, negated, line)
            == if !env.tree[parent].hasCallback then entered
               else if parent == CONFIG then Mark(entered)
               else FeedBack(env, Called(env.tree, entered, parent, negated), line, how, Fed(line, how))
  {}

  lemma CompleteCommand(env: Env, st: State, tokens: seq<Token>, line: Line)
    requires EnvOk(env) && InScope(line) && !st.halted && OnTree(env.tree, st.cursor) && tokens != []
    requires var w := WalkFrom(env, st.cursor, tokens); w.status == COMPLETE && env.tree[w.param].hasCallback
    ensures var w := WalkFrom(env, st.cursor, tokens);
            Build(env, st, tokens, line) == (Dispatch(env, Collected(env.tree, st, w.leaves), w, line), COMPLETE)
  {}

  /** A run of command lines; it ends early when the parser has halted or a line is not covered. */
  ghost function Run(env: Env, st: State, lines: seq<Line>): State
    requires EnvOk(env) && (!st.halted ==> OnTree(env.tree, st.cursor))
    decreases |lines|
  {
    if lines == [] || st.halted || !InScope(lines[0]) then st
    else Run(env, Parse(env, st, lines[0]).0, lines[1..])
  }
}
