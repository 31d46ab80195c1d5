/** A small registered tree, two runs on it that leave the mode-buffer invariant broken, and one that fails an
    assertion. */
module CliExample {
  import opened CommandTree
  import opened CommandWalk
  import opened CliModel
  import opened CliShadow
  import opened CliRefinement
  import opened CliTheorems
  import opened CliFeedback
  import opened CliShortcuts

  const HISTORY: Id := 10
  const SERVER: Id := 11
  const NAME: Id := 12
  const SHUT: Id := 13
  const NO: Id := 14
  const HELP: Id := 15
  const COUNT: Id := 16

  /** `show history [<N>]`, `show help`, `config [no] tcp-server <name> shut`. */
  const TREE: Tree := [
    Param(Cmd, "ROOT", INVALID, false, Inert, false, -1,
          [MODE, SUBOPTIONS, EXPANSION, SHOW, DEBUG, CONFIG, CLEAR, REPEAT], ROOT),
    Param(Cmd, "/", INVALID, true, Inert, false, -1, [], ROOT),
    Param(Cmd, "?", INVALID, true, Inert, false, -1, [], ROOT),
    Param(Cmd, ".", INVALID, true, Inert, false, -1, [], ROOT),
    Param(Cmd, "DO_HOOK", INVALID, false, Inert, false, -1,
          [SUBOPTIONS, SUBOPTIONS, EXPANSION, SHOW, DEBUG, CLEAR], ROOT),
    Param(Cmd, "config", INVALID, true, Inert, false, -1, [MODE, SUBOPTIONS, EXPANSION, SERVER, NO], ROOT),
    Param(Cmd, "show", INVALID, false, Inert, false, -1, [MODE, SUBOPTIONS, EXPANSION, HISTORY, HELP], ROOT),
    Param(Cmd, "debug", INVALID, false, Inert, false, -1, [], ROOT),
    Param(Cmd, "clear", INVALID, false, Inert, false, -1, [], ROOT),
    Param(Cmd, "repeat", INVALID, true, OneLine, false, -1, [], ROOT),
    Param(Cmd, "history", INVALID, true, OneLine, false, 2, [MODE, SUBOPTIONS, EXPANSION, COUNT], SHOW),
    Param(Cmd, "tcp-server", INVALID, false, Inert, false, -1, [MODE, SUBOPTIONS, EXPANSION, NAME], CONFIG),
    Param(Leaf, "name", STRING, true, Inert, false, 7, [MODE, SUBOPTIONS, EXPANSION, SHUT], SERVER),
    Param(Cmd, "shut", INVALID, true, Inert, false, 8, [], NAME),
    Param(NoCmd, "no", INVALID, true, Inert, false, -1, [SUBOPTIONS, SUBOPTIONS, EXPANSION, SERVER], CONFIG),
    Param(Cmd, "help", INVALID, true, Inert, false, 1, [], SHOW),
    Param(Leaf, "N", INT, true, OneLine, false, 3, [], HISTORY)
  ]

  /** Every leaf value is valid, and a `no` read as a leaf gives `stray`. */
  function Example(stray: Tlv): Env {
    Env(TREE, (k, s) => true, (n, s) => true, n => stray)
  }

  lemma ExampleParents()
    ensures forall n | CONFIG <= n < |TREE| :: ParentOk(TREE, n)
  {
    assert |TREE| == 17;
  }

  lemma HookOptions()
    ensures |TREE| == 17 && OptionsOk(TREE, ROOT) && forall n | DO_HOOK <= n <= REPEAT :: OptionsOk(TREE, n)
  {}

  lemma ExampleOptions()
    ensures |TREE| == 17 && forall n | REPEAT < n < |TREE| :: OptionsOk(TREE, n)
  {}

  lemma ExampleIsWellFormed()
    ensures WellFormed(TREE)
  {
    ExampleParents();
    HookOptions();
    ExampleOptions();
    assert Branch(TREE, CONFIG) == CONFIG;
    assert Branch(TREE, NO) == CONFIG;
  }

  function Word(text: string): Token {
    Token(text, 0)
  }

  /** An exact name is found when the options before it are too different to be candidates. */
  lemma FindsAt(t: Tree, options: seq<Id>, i: nat, token: string, choice: int)
    requires InTable(t, options) && i < |options| && Names(t, options[i], token)
    requires forall j | 0 <= j < i :: !(token <= t[options[j]].name)
    ensures FindMatch(t, options, token, choice) == Found(options[i])
  {
    FirstExactIs(t, options, i, token);
    forall j | 0 <= j < i
      ensures !Abbreviates(t, options[..i][j], token)
    {
      assert options[..i][j] == options[j];
    }
    NoCandidate(t, options[..i], token);
  }

  lemma {:induction false} FirstExactIs(t: Tree, options: seq<Id>, i: nat, token: string)
    requires InTable(t, options) && i < |options| && Names(t, options[i], token)
    requires forall j | 0 <= j < i :: !(token <= t[options[j]].name)
    ensures FirstExact(t, options, token) == i
    decreases i
  {
    if i > 0 {
      assert !(token <= t[options[0]].name);
      FirstExactIs(t, options[1..], i - 1, token);
    }
  }

  // ---- what the runs need to know of the tree ----

  ghost predicate Offers(t: Tree, n: Id, text: string, c: Id)
    requires WellFormed(t)
  {
    n < |t| && c < |t| && MatchAt(t, n, Word(text)) == Found(c)
  }

  ghost predicate Matching(t: Tree) {
    && WellFormed(t) && |t| == 17
    && Offers(t, ROOT, "show", SHOW) && Offers(t, DO_HOOK, "show", SHOW) && Offers(t, ROOT, "config", CONFIG)
    && Offers(t, SHOW, "history", HISTORY) && Offers(t, SHOW, "help", HELP)
    && Offers(t, CONFIG, "tcp-server", SERVER) && Offers(t, CONFIG, "no", NO)
    && Offers(t, SERVER, "abc", NAME)
    && Offers(t, NO, "?", SUBOPTIONS) && Offers(t, NAME, "/", MODE) && Offers(t, HISTORY, "/", MODE)
  }

  ghost predicate Parameters(t: Tree)
    requires |t| == 17
  {
    && t[HISTORY].kind.Cmd? && t[HISTORY].hasCallback && t[HISTORY].rerun == OneLine && t[HISTORY].cmdCode == 2
    && t[HELP].kind.Cmd? && t[HELP].hasCallback
    && t[SERVER].kind.Cmd? && t[NO].kind.NoCmd?
    && t[NAME].kind.Leaf? && t[NAME].leafType == STRING && t[NAME].name == "name"
  }

  ghost predicate Small(env: Env) {
    && Matching(env.tree) && Parameters(env.tree)
    && env.libValid(STRING, "abc") && env.userValid(NAME, "abc")
  }

  lemma ShowAtRoot()
    requires WellFormed(TREE)
    ensures Offers(TREE, ROOT, "show", SHOW)
  {
    FindsAt(TREE, TREE[ROOT].options, 3, "show", 0);
  }

  lemma ShowAtHook()
    requires WellFormed(TREE)
    ensures Offers(TREE, DO_HOOK, "show", SHOW)
  {
    FindsAt(TREE, TREE[DO_HOOK].options, 3, "show", 0);
  }

  lemma ConfigAtRoot()
    requires WellFormed(TREE)
    ensures Offers(TREE, ROOT, "config", CONFIG)
  {
    FindsAt(TREE, TREE[ROOT].options, 5, "config", 0);
  }

  lemma HistoryAtShow()
    requires WellFormed(TREE)
    ensures Offers(TREE, SHOW, "history", HISTORY)
  {
    FindsAt(TREE, TREE[SHOW].options, 3, "history", 0);
  }

  lemma HelpAtShow()
    requires WellFormed(TREE)
    ensures Offers(TREE, SHOW, "help", HELP)
  {
    assert "help"[1] != "history"[1];
    FindsAt(TREE, TREE[SHOW].options, 4, "help", 0);
  }

  lemma ServerAtConfig()
    requires WellFormed(TREE)
    ensures Offers(TREE, CONFIG, "tcp-server", SERVER)
  {
    FindsAt(TREE, TREE[CONFIG].options, 3, "tcp-server", 0);
  }

  lemma NoAtConfig()
    requires WellFormed(TREE)
    ensures Offers(TREE, CONFIG, "no", NO)
  {
    assert "no"[0] != "tcp-server"[0];
    FindsAt(TREE, TREE[CONFIG].options, 4, "no", 0);
  }

  lemma NameAtServer()
    requires WellFormed(TREE)
    ensures Offers(TREE, SERVER, "abc", NAME)
  {
    var options := TREE[SERVER].options;
    LeafTakesTheRest(TREE, options, "abc", 0);
    assert LastLeaf(TREE, options) == Found(NAME);
  }

  lemma Capabilities()
    requires WellFormed(TREE)
    ensures Offers(TREE, NO, "?", SUBOPTIONS) && Offers(TREE, NAME, "/", MODE) && Offers(TREE, HISTORY, "/", MODE)
  {
    FindsAt(TREE, TREE[NO].options, 0, "?", 0);
    FindsAt(TREE, TREE[NAME].options, 0, "/", 0);
    FindsAt(TREE, TREE[HISTORY].options, 0, "/", 0);
  }

  lemma ExampleIsMatching()
    ensures Matching(TREE)
  {
    ExampleIsWellFormed();
    ShowAtRoot();
    ShowAtHook();
    ConfigAtRoot();
    HistoryAtShow();
    HelpAtShow();
    ServerAtConfig();
    NoAtConfig();
    NameAtServer();
    Capabilities();
  }

  lemma ExampleIsSmall(stray: Tlv)
    ensures Small(Example(stray)) && Example(stray).stray(NO) == stray
  {
    ExampleIsMatching();
    ExampleParameters();
  }

  lemma ExampleParameters()
    ensures |TREE| == 17 && Parameters(TREE)
  {}

  // ---- the lines and their walks ----

  const SHOW_HISTORY := [Word("show"), Word("history")]
  const ENTER_NAME := [Word("config"), Word("tcp-server"), Word("abc"), Word("/")]
  const ASK_BEHIND_NO := [Word("config"), Word("no"), Word("?")]
  const ENTER_CONFIG := [Word("config")]
  const DO_SHOW_HELP := [Word("do")] + SHOW_HELP
  const SHOW_HELP := [Word("show"), Word("help")]
  const DO_ENTER_HISTORY := [Word("do")] + ENTER_HISTORY
  const ENTER_HISTORY := [Word("show"), Word("history"), Word("/")]

  /** A command's word in front of a walk. */
  lemma OverCommand(env: Env, n: Id, parent: Id, text: string, rest: seq<Token>, c: Id)
    requires EnvOk(env) && Offers(env.tree, n, text, c) && !env.tree[c].kind.Leaf?
    ensures var w := Walk(env, c, n, rest);
            Walk(env, n, parent, [Word(text)] + rest) == w.(negated := w.negated || env.tree[c].kind.NoCmd?)
  {
    var tokens := [Word(text)] + rest;
    assert tokens[0] == Word(text) && tokens[1..] == rest;
    WalkStep(env, n, parent, tokens);
  }

  lemma OverLeaf(env: Env, n: Id, parent: Id, text: string, rest: seq<Token>, c: Id)
    requires EnvOk(env) && Offers(env.tree, n, text, c) && env.tree[c].kind.Leaf?
    requires env.libValid(env.tree[c].leafType, text) && env.userValid(c, text)
    ensures var w := Walk(env, c, n, rest);
            Walk(env, n, parent, [Word(text)] + rest) == w.(leaves := [(c, text)] + w.leaves)
  {
    var tokens := [Word(text)] + rest;
    assert tokens[0] == Word(text) && tokens[1..] == rest;
    WalkStep(env, n, parent, tokens);
  }

  lemma WalkOfShowHistory(env: Env)
    requires Small(env)
    ensures WalkFrom(env, ROOT, SHOW_HISTORY) == Walked(COMPLETE, HISTORY, SHOW, [], false)
  {
    OverCommand(env, SHOW, ROOT, "history", [], HISTORY);
    OverCommand(env, ROOT, ROOT, "show", [Word("history")], SHOW);
    assert SHOW_HISTORY == [Word("show")] + ([Word("history")] + []);
  }

  lemma WalkOfShowHelp(env: Env)
    requires Small(env)
    ensures WalkFrom(env, DO_HOOK, SHOW_HELP) == Walked(COMPLETE, HELP, SHOW, [], false)
  {
    OverCommand(env, SHOW, DO_HOOK, "help", [], HELP);
    OverCommand(env, DO_HOOK, DO_HOOK, "show", [Word("help")], SHOW);
    assert SHOW_HELP == [Word("show")] + ([Word("help")] + []);
  }

  lemma WalkOfEnterHistory(env: Env)
    requires Small(env)
    ensures WalkFrom(env, DO_HOOK, ENTER_HISTORY) == Walked(COMPLETE, MODE, HISTORY, [], false)
  {
    CapabilityIsCommand(env.tree, MODE);
    OverCommand(env, HISTORY, SHOW, "/", [], MODE);
    OverCommand(env, SHOW, DO_HOOK, "history", [Word("/")], HISTORY);
    OverCommand(env, DO_HOOK, DO_HOOK, "show", [Word("history"), Word("/")], SHOW);
    assert [Word("/")] + [] == [Word("/")];
    assert [Word("history")] + [Word("/")] == [Word("history"), Word("/")];
    assert ENTER_HISTORY == [Word("show")] + [Word("history"), Word("/")];
  }

  lemma WalkOfEnterConfig(env: Env)
    requires Small(env)
    ensures WalkFrom(env, ROOT, ENTER_CONFIG) == Walked(COMPLETE, CONFIG, ROOT, [], false)
  {
    OverCommand(env, ROOT, ROOT, "config", [], CONFIG);
    assert ENTER_CONFIG == [Word("config")] + [];
  }

  lemma WalkOfAskBehindNo(env: Env)
    requires Small(env)
    ensures WalkFrom(env, ROOT, ASK_BEHIND_NO) == Walked(COMPLETE, SUBOPTIONS, NO, [], true)
  {
    CapabilityIsCommand(env.tree, SUBOPTIONS);
    OverCommand(env, NO, CONFIG, "?", [], SUBOPTIONS);
    OverCommand(env, CONFIG, ROOT, "no", [Word("?")], NO);
    OverCommand(env, ROOT, ROOT, "config", [Word("no"), Word("?")], CONFIG);
    assert [Word("?")] + [] == [Word("?")];
    assert [Word("no")] + [Word("?")] == [Word("no"), Word("?")];
    assert ASK_BEHIND_NO == [Word("config")] + [Word("no"), Word("?")];
  }

  lemma WalkOfEnterName(env: Env)
    requires Small(env)
    ensures WalkFrom(env, ROOT, ENTER_NAME) == Walked(COMPLETE, MODE, NAME, [(NAME, "abc")], false)
  {
    var two, three := [Word("abc"), Word("/")], [Word("tcp-server"), Word("abc"), Word("/")];
    CapabilityIsCommand(env.tree, MODE);
    OverCommand(env, NAME, SERVER, "/", [], MODE);
    OverLeaf(env, SERVER, CONFIG, "abc", [Word("/")], NAME);
    OverCommand(env, CONFIG, ROOT, "tcp-server", two, SERVER);
    OverCommand(env, ROOT, ROOT, "config", three, CONFIG);
    assert [Word("/")] + [] == [Word("/")];
    assert [Word("abc")] + [Word("/")] == two && [Word("tcp-server")] + two == three;
    assert ENTER_NAME == [Word("config")] + three;
  }

  /** How the lines are handled. */
  lemma Handlings()
    ensures Classify(ROOT, SHOW_HISTORY) == Classify(ROOT, ENTER_NAME) == Classify(ROOT, ASK_BEHIND_NO) == Ordinary
    ensures !LoadsFile(SHOW_HISTORY) && !LoadsFile(ENTER_NAME) && !LoadsFile(ASK_BEHIND_NO)
  {
    assert "show"[0] == 's' && "config"[0] == 'c' && "repeat"[0] == 'r';
  }

  lemma HandlingOfConfig()
    ensures Classify(ROOT, ENTER_CONFIG) == Ordinary && !LoadsFile(ENTER_CONFIG)
  {
    assert "config"[0] == 'c' && "config"[1] == 'o' && "repeat"[0] == 'r' && "cd"[1] == 'd' && "cd.."[1] == 'd';
    assert "cls"[1] == 'l';
  }

  lemma HandlingsOfDo()
    ensures Classify(NO, DO_SHOW_HELP) == Classify(CONFIG, DO_ENTER_HISTORY) == DoCommand
    ensures !LoadsFile(DO_SHOW_HELP) && !LoadsFile(DO_ENTER_HISTORY)
    ensures DO_SHOW_HELP[1..] == SHOW_HELP && DO_ENTER_HISTORY[1..] == ENTER_HISTORY
  {
    assert DO_SHOW_HELP[0] == Word("do") && DO_ENTER_HISTORY[0] == Word("do");
    assert "do"[0] == 'd' && "config"[0] == 'c';
  }

  // ---- the runs ----

  lemma ServerTlvs(env: Env)
    requires Small(env)
    ensures LeafTlvs(env.tree, []) == []
    ensures LeafTlvs(env.tree, [(NAME, "abc")]) == [Tlv(STRING, "name", "abc")]
    ensures CodeTlv(env.tree[HISTORY].cmdCode) == Tlv(INT, "CMDCODE", "2")
  {
    assert [(NAME, "abc")][1..] == [];
  }

  /** What `show history` leaves when it is answered with `config tcp-server abc /`. */
  ghost predicate HistoryFails(env: Env)
    requires EnvOk(env)
  {
    var line := Line(SHOW_HISTORY, [Line(ENTER_NAME, [])]);
    && InScope(line)
    && var after := Parse(env, INITIAL, line).0;
       && !after.halted && after.cursor == NAME
       && Path(env, after) == [Tlv(STRING, "name", "abc")]
       && after.tlvs == after.saved == [Tlv(INT, "CMDCODE", "2"), Tlv(STRING, "name", "abc")]
       && !Consistent(env, after)
  }

  lemma HistoryOn(env: Env)
    requires Small(env)
    ensures HistoryFails(env)
  {
    HistoryBuffers(env, Line(SHOW_HISTORY, [Line(ENTER_NAME, [])]));
    ServerTlvs(env);
  }

  lemma HistoryBuffers(env: Env, line: Line)
    requires Small(env) && line == Line(SHOW_HISTORY, [Line(ENTER_NAME, [])])
    ensures InScope(line)
    ensures var after := Parse(env, INITIAL, line).0;
            Entered(env, after, [CodeTlv(env.tree[HISTORY].cmdCode)], LeafTlvs(env.tree, [(NAME, "abc")]))
  {
    HistoryLines(env, line, Line(ENTER_NAME, []));
    FedBackModeHasForeignTlvs(env, INITIAL, line);
    WithoutEmpty(LeafTlvs(env.tree, []), [CodeTlv(env.tree[HISTORY].cmdCode)], LeafTlvs(env.tree, [(NAME, "abc")]));
  }

  /** The mode of `name`, with TLVs in front of those of its path. */
  ghost predicate Entered(env: Env, st: State, front: seq<Tlv>, own: seq<Tlv>) {
    !st.halted && st.cursor == NAME && Path(env, st) == own && st.tlvs == st.saved == front + own
  }

  lemma WithoutEmpty(a: seq<Tlv>, b: seq<Tlv>, c: seq<Tlv>)
    requires a == []
    ensures [] + a + b + c == b + c && [] + c == c
  {}

  lemma HistoryLines(env: Env, line: Line, again: Line)
    requires Small(env) && again == Line(ENTER_NAME, []) && line == Line(SHOW_HISTORY, [again])
    ensures InScope(line) && line.reruns[0] == again && Consistent(env, INITIAL)
    ensures Classify(ROOT, SHOW_HISTORY) == Classify(ROOT, ENTER_NAME) == Ordinary
    ensures WalkFrom(env, ROOT, SHOW_HISTORY) == Walked(COMPLETE, HISTORY, SHOW, [], false)
    ensures WalkFrom(env, ROOT, ENTER_NAME) == Walked(COMPLETE, MODE, NAME, [(NAME, "abc")], false)
    ensures FeedsOneBack(env, ROOT, SHOW_HISTORY)
  {
    WalkOfShowHistory(env);
    WalkOfEnterName(env);
    Handlings();
    assert InScope(again);
    assert Path(env, INITIAL) == [];
  }

  /** `show history`, answered with the recorded `config tcp-server abc /`: the mode's buffer begins with the
      command code of `show history`. */
  lemma HistoryBreaks(stray: Tlv)
    ensures EnvOk(Example(stray)) && HistoryFails(Example(stray))
  {
    ExampleIsSmall(stray);
    HistoryOn(Example(stray));
  }

  /** What `config no ?` and then `do show help` leave. */
  ghost predicate AskingFails(env: Env)
    requires EnvOk(env)
  {
    var ask, again := Line(ASK_BEHIND_NO, []), Line(DO_SHOW_HELP, []);
    && InScope(ask) && InScope(again)
    && var asked := Parse(env, INITIAL, ask).0;
       && !asked.halted && asked.cursor == NO && Consistent(env, asked)
       && var after := Parse(env, asked, again).0;
          && !after.halted && after.cursor == NO && Path(env, after) == []
          && after.tlvs == after.saved == [env.stray(NO)] && !Consistent(env, after)
  }

  lemma AskingOn(env: Env)
    requires Small(env)
    ensures AskingFails(env)
  {
    AskedAtNo(env, Line(ASK_BEHIND_NO, []));
    DoFromNo(env, Parse(env, INITIAL, Line(ASK_BEHIND_NO, [])).0, Line(DO_SHOW_HELP, []));
  }

  lemma DoFromNo(env: Env, st: State, again: Line)
    requires Small(env) && Consistent(env, st) && !st.halted && st.cursor == NO && st.tlvs == []
    requires again == Line(DO_SHOW_HELP, [])
    ensures InScope(again)
    ensures var after := Parse(env, st, again).0;
            && !after.halted && after.cursor == NO && Path(env, after) == []
            && after.tlvs == after.saved == [env.stray(NO)]
  {
    DoBreaksFromNo(env, st, again);
    DoBehindNoBreaks(env, st, again);
    DoIsAFrameOn(env, st, again);
    assert [] + [env.stray(NO)] == [env.stray(NO)];
  }

  lemma DoBreaksFromNo(env: Env, st: State, again: Line)
    requires Small(env) && st.cursor == NO && again == Line(DO_SHOW_HELP, [])
    ensures InScope(again) && InTree(env.tree, NO)
    ensures Breaks(env, NO, again.tokens) && Classify(NO, again.tokens) == DoCommand
  {
    WalkOfShowHelp(env);
    HandlingsOfDo();
    assert NegationOk(env.tree, NO);
  }

  lemma AskedAtNo(env: Env, ask: Line)
    requires Small(env) && ask == Line(ASK_BEHIND_NO, [])
    ensures InScope(ask)
    ensures var asked := Parse(env, INITIAL, ask).0;
            !asked.halted && asked.cursor == NO && asked.tlvs == [] && Consistent(env, asked)
  {
    WalkOfAskBehindNo(env);
    Handlings();
    assert InScope(ask);
    assert Path(env, INITIAL) == [];
    PlainLineKeepsInvariant(env, INITIAL, ask);
    OrdinaryLine(env, INITIAL, ask);
    assert env.tree[SUBOPTIONS].hasCallback;
    CompleteCommand(env, INITIAL, ASK_BEHIND_NO, ask);
  }

  /** The rebuilt path is the one from before. */
  lemma DoIsAFrameOn(env: Env, st: State, line: Line)
    requires EnvOk(env) && Consistent(env, st) && !st.halted && InScope(line) && line.reruns == []
    requires Breaks(env, st.cursor, line.tokens) && Classify(st.cursor, line.tokens) == DoCommand
    ensures Path(env, Parse(env, st, line).0) == st.tlvs
  {
    DoSwitchesModeExactly(env, st, line.tokens[1..], line);
    ConsistentBetweenLines(env, st);
    DoIsAFrame(env, st, line);
  }

  /** `config no ?` and then `do show help`: the buffer of the rebuilt, empty path holds a stray TLV. */
  lemma AskingBehindNoBreaks(stray: Tlv)
    ensures EnvOk(Example(stray)) && AskingFails(Example(stray)) && Example(stray).stray(NO) == stray
  {
    ExampleIsSmall(stray);
    AskingOn(Example(stray));
  }

  lemma EnterConfigOn(env: Env)
    requires Small(env)
    ensures InScope(Line(ENTER_CONFIG, []))
    ensures var entered := Parse(env, INITIAL, Line(ENTER_CONFIG, [])).0; !entered.halted && entered.cursor == CONFIG
  {
    var enter := Line(ENTER_CONFIG, []);
    WalkOfEnterConfig(env);
    HandlingOfConfig();
    assert InScope(enter);
    OrdinaryLine(env, INITIAL, enter);
    CompleteCommand(env, INITIAL, ENTER_CONFIG, enter);
  }

  lemma DoHistoryLine(line: Line)
    requires line == Line(DO_ENTER_HISTORY, [JUMP])
    ensures InScope(line) && Classify(CONFIG, line.tokens) == DoCommand && line.tokens[1..] == ENTER_HISTORY
  {
    HandlingsOfDo();
    CdLines(HISTORY);
    assert line.reruns[0] == JUMP;
  }

  lemma AssertionOn(env: Env, st: State, line: Line)
    requires Small(env) && !st.halted && st.cursor == CONFIG && line == Line(DO_ENTER_HISTORY, [JUMP])
    ensures InScope(line)
    ensures var done := Build(env, AtHook(st), ENTER_HISTORY, line).0; !done.halted && done.cursor == ROOT
    ensures Parse(env, st, line).0.halted
  {
    DoHistoryLine(line);
    assert Branch(env.tree, CONFIG) == CONFIG;
    HistoryAnswersCd(env, line);
    BuildMirrors(env, AtHook(st), Shadow(DO_HOOK, false, false), ENTER_HISTORY, line);
    DoAssertionByShadow(env, st, ENTER_HISTORY, line);
    DoLine(env, st, line);
  }

  lemma HistoryAnswersCd(env: Env, line: Line)
    requires Small(env) && InScope(line) && line == Line(DO_ENTER_HISTORY, [JUMP])
    ensures ShBuild(env, Shadow(DO_HOOK, false, false), ENTER_HISTORY, line).0 == START
  {
    var hook, w := Shadow(DO_HOOK, false, false), WalkFrom(env, DO_HOOK, ENTER_HISTORY);
    WalkOfEnterHistory(env);
    assert env.tree[MODE].hasCallback;
    ShCompleteCommand(env, hook, ENTER_HISTORY, line);
    assert ShDispatch(env, hook, w, line) == ShEnter(env, false, HISTORY, line);
    HistoryIsLeft(env, line);
  }

  lemma HistoryIsLeft(env: Env, line: Line)
    requires Small(env) && InScope(line) && line == Line(DO_ENTER_HISTORY, [JUMP])
    ensures ShEnter(env, false, HISTORY, line) == START
  {
    CdLines(HISTORY);
    assert line.reruns[0] == JUMP;
    InvokeFeedsOneBack(env, HISTORY, false, HISTORY, line);
    assert ShHandle(env, Shadow(HISTORY, true, false), JUMP).0 == START;
  }

  /** What `config` and then `do show history /` do when the latter is answered with `cd`. */
  ghost predicate AssertionReached(env: Env)
    requires EnvOk(env)
  {
    var enter, again := Line(ENTER_CONFIG, []), Line(DO_ENTER_HISTORY, [JUMP]);
    && InScope(enter) && InScope(again)
    && var entered := Parse(env, INITIAL, enter).0;
       && !entered.halted && entered.cursor == CONFIG
       && var done := Build(env, AtHook(entered), ENTER_HISTORY, again).0;
          && !done.halted && done.cursor == ROOT
          && Parse(env, entered, again).0.halted
  }

  /** `config` and then `do show history /`, answered with a recorded `cd`: the lookup of the mode's branch asserts
      that the cursor is not at the root, and it is. */
  lemma DoAssertionFails(stray: Tlv)
    ensures EnvOk(Example(stray)) && AssertionReached(Example(stray))
  {
    ExampleIsSmall(stray);
    DoAssertionOn(Example(stray));
  }

  lemma DoAssertionOn(env: Env)
    requires Small(env)
    ensures AssertionReached(env)
  {
    EnterConfigOn(env);
    AssertionOn(env, Parse(env, INITIAL, Line(ENTER_CONFIG, [])).0, Line(DO_ENTER_HISTORY, [JUMP]));
  }
}
