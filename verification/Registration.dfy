/** Building the tree: libcli_register_param and support_cmd_negation (CommandParser/cmd_hier.c). */
module Registration {
  import opened CommandTree
  import opened CommandWalk

  const RUN: Id := 10

  /** The three slots every param with children starts with. */
  function Capabilities(kind: Kind): seq<Id> {
    [if kind.NoCmd? then SUBOPTIONS else MODE, SUBOPTIONS, EXPANSION]
  }

  function WithChild(p: Param, child: Id): Param {
    p.(options := (if p.options == [] then Capabilities(p.kind) else p.options) + [child])
  }

  /** The table after a child was hung under `parent`. */
  function Registered(t: Tree, parent: Id, child: Param): Tree
    requires parent < |t|
  {
    t[parent := WithChild(t[parent], |t|)] + [child.(options := [], parent := parent)]
  }

  /** The param support_cmd_negation creates under `n`: it offers the children `n` has so far, and where "/"
      would be it repeats "?". */
  function NoParam(t: Tree, n: Id): Param
    requires n < |t| && |t[n].options| >= CHILDREN_START_INDEX
  {
    Param(NoCmd, "no", INVALID, true, Inert, false, -1,
          Capabilities(NoCmd) + t[n].options[CHILDREN_START_INDEX..], n)
  }

  function Negated(t: Tree, n: Id): Tree
    requires n < |t| && |t[n].options| >= CHILDREN_START_INDEX
  {
    t[n := t[n].(options := t[n].options + [|t|])] + [NoParam(t, n)]
  }

  /** Two tables that agree on parents put every param in the same branch. */
  lemma {:induction false} BranchFrame(t: Tree, u: Tree, n: Id)
    requires |t| <= |u| && n < |t| && forall i | 0 <= i < |t| :: u[i].parent == t[i].parent
    ensures Branch(u, n) == Branch(t, n)
    decreases n
  {
    if CONFIG <= n && t[n].parent != ROOT && t[n].parent < n {
      BranchFrame(t, u, t[n].parent);
    }
  }

  /** Growing the table by one param, and one param's options by that, keeps what was there well formed. */
  ghost predicate Grows(t: Tree, u: Tree, n: Id)
    requires n < |t|
  {
    && |u| == |t| + 1
    && (forall i | 0 <= i < |t| && i != n :: u[i] == t[i])
    && u[n] == t[n].(options := u[n].options)
    && u[|t|].parent == n
  }

  lemma GrowthKeepsTheRest(t: Tree, u: Tree, n: Id)
    requires WellFormed(t) && (n == ROOT || CONFIG <= n < |t|) && !t[n].kind.NoCmd? && Grows(t, u, n)
    requires OptionsOk(u, n) && OptionsOk(u, |t|) && ParentOk(u, |t|) && NegationOk(u, |t|)
    ensures WellFormed(u)
  {
    forall i | CONFIG <= i < |u|
      ensures ParentOk(u, i) && NegationOk(u, i)
    {
      if i < |t| {
        assert ParentOk(t, i) && NegationOk(t, i);
        BranchFrame(t, u, i);
      }
    }
    forall i | i == ROOT || DO_HOOK <= i < |u|
      ensures OptionsOk(u, i)
    {
      if i < |t| && i != n {
        assert OptionsOk(t, i);
      }
    }
  }

  /** Registering keeps the tree well formed. */
  lemma RegisteringKeepsWellFormed(t: Tree, parent: Id, child: Param)
    requires WellFormed(t) && (parent == ROOT || CONFIG <= parent < |t|) && !t[parent].kind.NoCmd?
    requires |t[parent].options| < MAX_OPTION_SIZE && !child.kind.NoCmd?
    ensures WellFormed(Registered(t, parent, child))
  {
    var u := Registered(t, parent, child);
    assert OptionsOk(t, parent);
    GrowthKeepsTheRest(t, u, parent);
  }

  /** So does adding negation support to a param of the config branch that has children. */
  lemma NegatingKeepsWellFormed(t: Tree, n: Id)
    requires WellFormed(t) && CONFIG <= n < |t| && !t[n].kind.NoCmd? && Branch(t, n) == CONFIG
    requires CHILDREN_START_INDEX < |t[n].options| < MAX_OPTION_SIZE
    ensures WellFormed(Negated(t, n))
  {
    var u := Negated(t, n);
    BranchFrame(t, u, n);
    assert Branch(u, |t|) == Branch(u, n);
    NegatedOptions(t, n);
    GrowthKeepsTheRest(t, u, n);
  }

  /** A child that is new to the table is in no slot yet, and a `no` copies children that are all different. */
  lemma GrowthKeepsNoRepeats(t: Tree, parent: Id, child: Param)
    requires WellFormed(t) && NoRepeats(t) && (parent == ROOT || CONFIG <= parent < |t|) && !t[parent].kind.NoCmd?
    ensures NoRepeats(Registered(t, parent, child))
    ensures |t[parent].options| >= CHILDREN_START_INDEX ==> NoRepeats(Negated(t, parent))
  {
    assert OptionsOk(t, parent);
    var u := Registered(t, parent, child);
    forall n | 0 <= n < |u|
      ensures KidsDistinct(u, n)
    {
      assert n < |t| ==> KidsDistinct(t, n);
    }
    if |t[parent].options| >= CHILDREN_START_INDEX {
      var v := Negated(t, parent);
      assert KidsDistinct(t, parent);
      forall n | 0 <= n < |v|
        ensures KidsDistinct(v, n)
      {
        assert n < |t| ==> KidsDistinct(t, n);
        assert v[|t|].options[CHILDREN_START_INDEX..] == t[parent].options[CHILDREN_START_INDEX..];
        assert forall k | CHILDREN_START_INDEX <= k < |v[|t|].options| :: v[|t|].options[k] == t[parent].options[k];
      }
    }
  }

  lemma NegatedOptions(t: Tree, n: Id)
    requires WellFormed(t) && CONFIG <= n < |t| && !t[n].kind.NoCmd?
    requires CHILDREN_START_INDEX < |t[n].options| < MAX_OPTION_SIZE
    ensures OptionsOk(Negated(t, n), n) && OptionsOk(Negated(t, n), |t|)
  {
    assert OptionsOk(t, n);
    var u := Negated(t, n);
    assert Anchor(u, n) == n && Anchor(u, |t|) == n;
    var options := u[|t|].options;
    forall k | CHILDREN_START_INDEX <= k < |options|
      ensures CONFIG <= options[k] < |u| && u[options[k]].parent == n
    {
      assert options[k] == t[n].options[k];
    }
  }

  /** The tree before anything is registered below it: root, capabilities, do-hook and the zero-level hooks. */
  const BARE: Tree := [
    Param(Cmd, "ROOT", INVALID, false, Inert, false, -1,
          [MODE, SUBOPTIONS, EXPANSION, SHOW, DEBUG, CONFIG, CLEAR, RUN, REPEAT], ROOT),
    Param(Cmd, "/", INVALID, true, Inert, false, -1, [], ROOT),
    Param(Cmd, "?", INVALID, true, Inert, false, -1, [], ROOT),
    Param(Cmd, ".", INVALID, true, Inert, false, -1, [], ROOT),
    Param(Cmd, "DO_HOOK", INVALID, false, Inert, false, -1,
          [SUBOPTIONS, SUBOPTIONS, EXPANSION, SHOW, DEBUG, CLEAR], ROOT),
    Param(Cmd, "config", INVALID, true, Inert, false, -1, [], ROOT),
    Param(Cmd, "show", INVALID, false, Inert, false, -1, [], ROOT),
    Param(Cmd, "debug", INVALID, false, Inert, false, -1, [], ROOT),
    Param(Cmd, "clear", INVALID, false, Inert, false, -1, [], ROOT),
    Param(Cmd, "repeat", INVALID, true, OneLine, false, -1, [], ROOT),
    Param(Cmd, "run", INVALID, false, Inert, false, -1, [], ROOT)
  ]

  lemma BareHooks()
    ensures |BARE| == 11 && forall n | CONFIG <= n < |BARE| :: ParentOk(BARE, n) && NegationOk(BARE, n)
  {}

  lemma BareOptions()
    ensures OptionsOk(BARE, ROOT) && NoRepeats(BARE) && forall n | DO_HOOK <= n < |BARE| :: OptionsOk(BARE, n)
  {
    assert |BARE| == 11;
  }

  lemma BareIsWellFormed()
    ensures WellFormed(BARE) && NoRepeats(BARE)
  {
    BareHooks();
    BareOptions();
  }

  function Command(name: string, hasCallback: bool, rerun: Rerun, cmdCode: int): Param {
    Param(Cmd, name, INVALID, hasCallback, rerun, false, cmdCode, [], ROOT)
  }

  function LeafOf(name: string, leafType: LeafType, hasCallback: bool, rerun: Rerun, cmdCode: int): Param {
    Param(Leaf, name, leafType, hasCallback, rerun, false, cmdCode, [], ROOT)
  }

  /** A param in its place. */
  function Hung(p: Param, parent: Id, kids: seq<Id>): Param {
    p.(parent := parent, options := if kids == [] then [] else Capabilities(p.kind) + kids)
  }

  /** The table with children hung under `n`, and those and theirs added at its end. */
  function Grown(t: Tree, n: Id, kids: seq<Id>, added: seq<Param>): Tree
    requires n < |t|
  {
    t[n := t[n].(options := (if t[n].options == [] then Capabilities(t[n].kind) else t[n].options) + kids)] + added
  }

  function ShowParams(b: nat): seq<Param> {
    [Hung(Command("help", true, Inert, 1), SHOW, []),
     Hung(Command("history", true, OneLine, 2), SHOW, [b + 2]),
     Hung(LeafOf("N", INT, true, OneLine, 3), b + 1, [])]
  }

  function RegisteredParams(b: nat): seq<Param> {
    [Hung(Command("registered", false, Inert, -1), SHOW, [b + 1]),
     Hung(Command("commands", true, Inert, 4), b, [])]
  }

  function DebugParams(b: nat): seq<Param> {
    [Hung(Command("ut", false, Inert, -1), DEBUG, [b + 1]),
     Hung(LeafOf("ut-enable", STRING, true, Inert, 10), b, []),
     Hung(Command("show", false, Inert, -1), DEBUG, [b + 3]),
     Hung(Command("cmdtree", true, Inert, 7), b + 2, [])]
  }

  function ConfigParams(b: nat): seq<Param> {
    [Hung(Command("load", false, Inert, -1), CONFIG, [b + 1]),
     Hung(LeafOf("file-name", STRING, true, Inert, 8), b, []),
     Hung(Command("supportsave", false, Inert, -1), CONFIG, [b + 3]),
     Hung(Command("enable", true, Inert, 5), b + 2, [])]
  }

  function RunParams(b: nat): seq<Param> {
    [Hung(Command("term", true, Inert, -1), RUN, []),
     Hung(Command("ut", false, Inert, -1), RUN, [b + 2]),
     Hung(LeafOf("ut-file-name", STRING, false, Inert, -1), b + 1, [b + 3]),
     Hung(LeafOf("tc-no", INT, true, Script, 9), b + 2, [])]
  }

  function ConsoleParams(b: nat): seq<Param> {
    [Hung(Command("console", false, Inert, -1), CONFIG, [b + 1]),
     Hung(Command("name", false, Inert, -1), b, [b + 2]),
     Hung(LeafOf("cons-name", STRING, true, Inert, 6), b + 1, [])]
  }

  const SHORTCUTS: seq<Param> := [
    Hung(Command("cls", true, Inert, -1), ROOT, []),
    Hung(Command("cd..", true, Inert, -1), ROOT, []),
    Hung(Command("cd", true, Inert, -1), ROOT, [])
  ]

  function WithShowAndDebug(t: Tree): (u: Tree)
    requires |t| == 11
    ensures |u| == 20
  {
    var shows := Grown(t, SHOW, [11, 12], ShowParams(11));
    var others := Grown(shows, SHOW, [14], RegisteredParams(14));
    Grown(others, DEBUG, [16, 18], DebugParams(16))
  }

  function WithConfigAndRun(t: Tree): (u: Tree)
    requires |t| == 20
    ensures |u| == 31
  {
    var configs := Grown(t, CONFIG, [20, 22], ConfigParams(20));
    var runs := Grown(configs, RUN, [24, 25], RunParams(24));
    Grown(runs, CONFIG, [28], ConsoleParams(28))
  }

  function WithShortcuts(t: Tree): Tree
    requires t != []
  {
    Grown(t, ROOT, [|t|, |t| + 1, |t| + 2], SHORTCUTS)
  }

  /** The library's commands on a table of eleven. */
  function WithBuiltIns(t: Tree): Tree
    requires |t| == 11
  {
    WithShortcuts(WithConfigAndRun(WithShowAndDebug(t)))
  }

  /** A table whose zero-level hooks have no children yet, and whose root has room for three more. */
  predicate Unfilled(t: Tree) {
    && |t| == 11 && (forall n | CONFIG <= n < 11 :: t[n].options == []) && t[RUN].kind.Cmd?
    && CHILDREN_START_INDEX <= |t[ROOT].options| <= MAX_OPTION_SIZE - 3
  }

  lemma BareIsUnfilled()
    ensures Unfilled(BARE)
  {}

  /** The parser's table of params while the application registers its commands. */
  class CommandTable {
    var params: Tree

    ghost predicate Valid()
      reads this
    {
      WellFormed(params) && NoRepeats(params)
    }

    constructor ()
      ensures Valid() && params == BARE && Unfilled(params)
    {
      params := BARE;
      new;
      BareIsWellFormed();
      BareIsUnfilled();
    }

    /** libcli_register_param: capability slots first, then the first free child slot. */
    method RegisterParam(parent: Id, child: Param) returns (id: Id)
      requires Valid() && (parent == ROOT || CONFIG <= parent < |params|) && !params[parent].kind.NoCmd?
      requires |params[parent].options| < MAX_OPTION_SIZE && !child.kind.NoCmd?
      modifies this
      ensures Valid() && params == Registered(old(params), parent, child)
      ensures id == |old(params)| == |params| - 1
      ensures params[parent].options
           == (if old(params[parent].options) == [] then [MODE, SUBOPTIONS, EXPANSION] else old(params[parent].options))
              + [id]
      ensures params[id] == child.(options := [], parent := parent)
      ensures forall i | 0 <= i < id && i != parent :: params[i] == old(params)[i]
    {
      RegisteringKeepsWellFormed(params, parent, child);
      GrowthKeepsNoRepeats(params, parent, child);
      assert OptionsOk(params, parent);
      id := |params|;
      var options := params[parent].options;
      if options == [] {
        options := [MODE, SUBOPTIONS, EXPANSION];
      }
      options := options + [id];
      params := params[parent := params[parent].(options := options)] + [child.(options := [], parent := parent)];
    }

    /** show help, show history [<N>] */
    method RegisterShow()
      requires Valid() && params[SHOW].options == []
      modifies this
      ensures Valid()
      ensures var b := |old(params)|; params == Grown(old(params), SHOW, [b, b + 1], ShowParams(b))
    {
      ghost var t, b := params, |params|;
      var help := RegisterParam(SHOW, Command("help", true, Inert, 1));
      var history := RegisterParam(SHOW, Command("history", true, OneLine, 2));
      var count := RegisterParam(history, LeafOf("N", INT, true, OneLine, 3));
      assert params[SHOW].options == Capabilities(Cmd) + [b, b + 1];
      assert params == Grown(t, SHOW, [b, b + 1], ShowParams(b));
    }

    /** A command and the one param below it. */
    method RegisterPair(hook: Id, upper: Param, lower: Param)
      requires Valid() && (hook == ROOT || CONFIG <= hook < |params|) && params[hook].kind.Cmd?
      requires |params[hook].options| < MAX_OPTION_SIZE && upper.kind.Cmd? && !lower.kind.NoCmd?
      modifies this
      ensures Valid()
      ensures var b := |old(params)|;
              params == Grown(old(params), hook, [b], [Hung(upper, hook, [b + 1]), Hung(lower, b, [])])
    {
      var id := RegisterParam(hook, upper);
      var below := RegisterParam(id, lower);
    }

    /** show registered commands */
    method RegisterRegistered()
      requires Valid() && CHILDREN_START_INDEX <= |params[SHOW].options| < MAX_OPTION_SIZE
      modifies this
      ensures Valid()
      ensures var b := |old(params)|; params == Grown(old(params), SHOW, [b], RegisteredParams(b))
    {
      RegisterPair(SHOW, Command("registered", false, Inert, -1), Command("commands", true, Inert, 4));
    }

    /** debug ut <enable | disable>, debug show cmdtree */
    method RegisterDebug()
      requires Valid() && params[DEBUG].options == []
      modifies this
      ensures Valid()
      ensures var b := |old(params)|; params == Grown(old(params), DEBUG, [b, b + 2], DebugParams(b))
    {
      ghost var t, b := params, |params|;
      RegisterPair(DEBUG, Command("ut", false, Inert, -1), LeafOf("ut-enable", STRING, true, Inert, 10));
      RegisterPair(DEBUG, Command("show", false, Inert, -1), Command("cmdtree", true, Inert, 7));
      assert params[DEBUG].options == Capabilities(Cmd) + [b, b + 2];
      assert params == Grown(t, DEBUG, [b, b + 2], DebugParams(b));
    }

    /** config load <file-name>, config supportsave enable */
    method RegisterConfig()
      requires Valid() && params[CONFIG].options == []
      modifies this
      ensures Valid()
      ensures var b := |old(params)|; params == Grown(old(params), CONFIG, [b, b + 2], ConfigParams(b))
    {
      ghost var t, b := params, |params|;
      RegisterPair(CONFIG, Command("load", false, Inert, -1), LeafOf("file-name", STRING, true, Inert, 8));
      RegisterPair(CONFIG, Command("supportsave", false, Inert, -1), Command("enable", true, Inert, 5));
      assert params[CONFIG].options == Capabilities(Cmd) + [b, b + 2];
      assert params == Grown(t, CONFIG, [b, b + 2], ConfigParams(b));
    }

    /** config console name <cons-name> */
    method RegisterConsole()
      requires Valid() && CHILDREN_START_INDEX <= |params[CONFIG].options| < MAX_OPTION_SIZE
      modifies this
      ensures Valid()
      ensures var b := |old(params)|; params == Grown(old(params), CONFIG, [b], ConsoleParams(b))
    {
      var console := RegisterParam(CONFIG, Command("console", false, Inert, -1));
      var name := RegisterParam(console, Command("name", false, Inert, -1));
      var consName := RegisterParam(name, LeafOf("cons-name", STRING, true, Inert, 6));
    }

    /** run term, run ut <ut-file-name> <tc-no> */
    method RegisterRun()
      requires Valid() && RUN < |params| && params[RUN].options == [] && params[RUN].kind.Cmd?
      modifies this
      ensures Valid()
      ensures var b := |old(params)|; params == Grown(old(params), RUN, [b, b + 1], RunParams(b))
    {
      ghost var t, b := params, |params|;
      var term := RegisterParam(RUN, Command("term", true, Inert, -1));
      var ut := RegisterParam(RUN, Command("ut", false, Inert, -1));
      var fileName := RegisterParam(ut, LeafOf("ut-file-name", STRING, false, Inert, -1));
      var testCase := RegisterParam(fileName, LeafOf("tc-no", INT, true, Script, 9));
      assert params[RUN].options == Capabilities(Cmd) + [b, b + 1];
      assert params == Grown(t, RUN, [b, b + 1], RunParams(b));
    }

    /** init_libcli, on the zero-level hooks: every built-in command, and at last the shortcuts `cls`, `cd..` and
        `cd` at the root. */
    method InitLibcli()
      requires Valid() && Unfilled(params)
      modifies this
      ensures Valid() && params == WithBuiltIns(old(params))
    {
      RegisterShowAndDebug();
      RegisterConfigAndRun();
      RegisterShortcuts();
    }

    method RegisterShowAndDebug()
      requires Valid() && Unfilled(params)
      modifies this
      ensures Valid() && params == WithShowAndDebug(old(params))
      ensures |params| == 20 && params[CONFIG].options == params[RUN].options == []
      ensures params[RUN].kind.Cmd? && params[ROOT] == old(params[ROOT])
    {
      RegisterShow();
      RegisterRegistered();
      RegisterDebug();
    }

    method RegisterConfigAndRun()
      requires Valid() && |params| == 20 && params[CONFIG].options == params[RUN].options == []
      requires params[RUN].kind.Cmd?
      modifies this
      ensures Valid() && params == WithConfigAndRun(old(params))
      ensures |params| == 31 && params[ROOT] == old(params[ROOT])
    {
      RegisterConfig();
      RegisterRun();
      RegisterConsole();
    }

    /** `cls`, `cd..` and `cd` */
    method RegisterShortcuts()
      requires Valid() && CHILDREN_START_INDEX <= |params[ROOT].options| <= MAX_OPTION_SIZE - 3
      modifies this
      ensures Valid()
      ensures params == WithShortcuts(old(params))
    {
      ghost var t, b := params, |params|;
      var cls := RegisterParam(ROOT, Command("cls", true, Inert, -1));
      var up := RegisterParam(ROOT, Command("cd..", true, Inert, -1));
      var top := RegisterParam(ROOT, Command("cd", true, Inert, -1));
      assert params[ROOT].options == t[ROOT].options + [b, b + 1, b + 2];
      assert params == Grown(t, ROOT, [b, b + 1, b + 2], SHORTCUTS);
    }

    /** support_cmd_negation. A param that already has a `no` is left alone; `answer` is what the user replies
        should "no" abbreviate several of its commands. */
    method SupportCmdNegation(n: Id, answer: int)
      requires Valid() && CONFIG <= n < |params| && !params[n].kind.NoCmd? && Branch(params, n) == CONFIG
      requires CHILDREN_START_INDEX < |params[n].options| < MAX_OPTION_SIZE
      requires MatchAt(params, n, Token("no", answer)) != TooMany
      modifies this
      ensures Valid()
      ensures params == if AlreadyNegated(old(params), n, answer) then old(params) else Negated(old(params), n)
      ensures params != old(params) ==>
                var id := |old(params)|;
                && |params| == id + 1 && params[n].options == old(params[n].options) + [id]
                && params[id].kind.NoCmd? && params[id].name == "no" && params[id].parent == n
                && params[id].options
                == [SUBOPTIONS, SUBOPTIONS, EXPANSION] + old(params[n].options)[CHILDREN_START_INDEX..]
    {
      NegatingKeepsWellFormed(params, n);
      GrowthKeepsNoRepeats(params, n, params[ROOT]);
      OptionsAreInTable(params, n);
      var negation := FindMatch(params, params[n].options, "no", answer);
      if negation.Found? {
        MatchIsInTable(params, n, Token("no", answer));
      }
      if negation.Found? && params[negation.param].kind.NoCmd? {
        return;
      }
      var id := |params|;
      var copied: seq<Id> := [SUBOPTIONS, SUBOPTIONS, EXPANSION];
      var options := params[n].options;
      var i := CHILDREN_START_INDEX;
      while i < |options|
        invariant CHILDREN_START_INDEX <= i <= |options|
        invariant copied == Capabilities(NoCmd) + options[CHILDREN_START_INDEX..i]
      {
        copied := copied + [options[i]];
        i := i + 1;
      }
      assert options[CHILDREN_START_INDEX..i] == options[CHILDREN_START_INDEX..];
      params := params[n := params[n].(options := options + [id])]
              + [Param(NoCmd, "no", INVALID, true, Inert, false, -1, copied, n)];
    }
  }

  ghost predicate AlreadyNegated(t: Tree, n: Id, answer: int)
    requires WellFormed(t) && n < |t|
  {
    var m := MatchAt(t, n, Token("no", answer));
    m.Found? && m.param < |t| && t[m.param].kind.NoCmd?
  }
}
