/** The command parser itself: global cursor, TLV buffer and leaf value holders, updated in place
    (CommandParser/parser.c, cmd_hier.c), proved against the model of one command line. */
module CliParser {
  import opened CliModel
  import opened CliShadow
  import opened CliTheorems
  import opened CommandTree
  import opened CommandWalk
  import opened Sequences
  import opened SerBuffer
  import opened WalkMeaning

  /** The initial 1024 bytes hold ten TLV records of 4 + 32 + 64 bytes. */
  const TLV_MAX_BUFFER_UNITS: nat := 1024 / 100

  class Cli {
    const env: Env
    const buff: SerializedBuffer<Tlv>
    var cursor: Id
    var values: Values
    var halted: bool
    /** Every application handler invoked so far, with what it was shown. */
    ghost var calls: seq<Call>

    ghost predicate Valid()
      reads this, buff, buff.b
    {
      && EnvOk(env) && OnTree(env.tree, cursor)
      && buff.Valid() && buff.checkpoint <= buff.next
    }

    ghost function Abs(): State
      requires Valid()
      reads this, buff, buff.b
    {
      State(cursor, buff.Contents(), buff.Saved(), values, calls, halted)
    }

    constructor (env: Env)
      requires EnvOk(env)
      ensures Valid() && fresh(buff) && fresh(buff.b) && this.env == env && Abs() == INITIAL
    {
      this.env := env;
      buff := new SerializedBuffer(TLV_MAX_BUFFER_UNITS, DUMMY);
      cursor, values, halted, calls := ROOT, map[], false, [];
    }

    /** collect_tlv */
    method CollectTlv(tlv: Tlv)
      requires Valid()
      modifies buff, buff.b
      ensures Valid() && (buff.b == old(buff.b) || fresh(buff.b))
      ensures Abs() == Collect(old(Abs()), tlv)
    {
      buff.SerializeString([tlv]);
    }

    /** find_matching_param */
    method FindMatchingParam(options: seq<Id>, token: Token) returns (m: Match)
      requires InTable(env.tree, options)
      ensures m == FindMatch(env.tree, options, token.text, token.choice)
    {
      var t := env.tree;
      var leaf := NotFound;
      var possibilities := new Id[POSSIBILITY_ARRAY_SIZE](_ => 0);
      var i, j := 0, 0;
      while i < |options|
        invariant 0 <= i <= |options| && 0 <= j < POSSIBILITY_ARRAY_SIZE
        invariant FirstExact(t, options[..i], token.text) == i
        invariant possibilities[..j] == Abbreviated(t, options[..i], token.text)
        invariant leaf == LastLeaf(t, options[..i])
      {
        Snoc(t, options, i, token.text);
        if t[options[i]].kind.Leaf? {
          leaf := Found(options[i]);
        } else if token.text <= t[options[i]].name {
          if |token.text| == |t[options[i]].name| {
            ExactAt(t, options, i, token.text);
            return Found(options[i]);
          }
          possibilities[j] := options[i];
          j := j + 1;
          if j == POSSIBILITY_ARRAY_SIZE {
            TooManyAt(t, options, i + 1, token.text);
            return TooMany;
          }
        }
        i := i + 1;
      }
      assert options[..i] == options;
      if j == 0 {
        return leaf;
      }
      if j == 1 {
        return Found(possibilities[0]);
      }
      if token.choice < 0 || token.choice > j - 1 {
        return NotFound;
      }
      return Found(possibilities[token.choice]);
    }

    /** One round of build_tlv_buffer's loop: match the token and, at a leaf, validate, store and collect it. */
    method TakeToken(at: Id, token: Token) returns (status: Status, next: Id)
      requires Valid() && at < |env.tree|
      modifies `values, buff, buff.b
      ensures Valid() && (buff.b == old(buff.b) || fresh(buff.b))
      ensures next < |env.tree| && OptionsInTable(env.tree, at)
      ensures match FindMatch(env.tree, env.tree[at].options, token.text, token.choice)
              case TooMany => status == HALT
              case NotFound => status == CMD_NOT_FOUND
              case Found(c) =>
                && next == c
                && (status == INVALID_LEAF <==>
                      env.tree[c].kind.Leaf? && !env.libValid(env.tree[c].leafType, token.text))
                && (status == USER_INVALID_LEAF <==>
                      && env.tree[c].kind.Leaf? && env.libValid(env.tree[c].leafType, token.text)
                      && !env.userValid(c, token.text))
                && (status !in {INVALID_LEAF, USER_INVALID_LEAF} ==> status == COMPLETE)
      ensures var p := env.tree[next];
              var taken := status == COMPLETE && p.kind.Leaf?;
              && values == (if taken then old(values)[next := token.text] else old(values))
              && buff.Contents() == old(buff.Contents()) + if taken then [Tlv(p.leafType, p.name, token.text)] else []
      ensures StepStatus(env, at, token) == status
      ensures status == COMPLETE ==>
                && MatchAt(env.tree, at, token) == Found(next)
                && LeavesOk(env.tree, Taken(env.tree, next, token.text))
                && Abs() == Collected(env.tree, old(Abs()), Taken(env.tree, next, token.text))
      ensures status != COMPLETE ==> Abs() == old(Abs())
    {
      var t := env.tree;
      OptionsAreInTable(t, at);
      var m := FindMatchingParam(t[at].options, token);
      match m {
        case TooMany => return HALT, at;
        case NotFound => return CMD_NOT_FOUND, at;
        case Found(c) =>
          MatchIsInTable(t, at, token);
          TakenIs(t, values, c, token.text);
          if t[c].kind.Leaf? {
            LeavesAreParams(t, c);
            if !env.libValid(t[c].leafType, token.text) {
              return INVALID_LEAF, c;
            }
            if !env.userValid(c, token.text) {
              return USER_INVALID_LEAF, c;
            }
            values := values[c := token.text];
            CollectTlv(LeafTlv(t, c, token.text));
          } else {
            assert buff.Contents() + [] == buff.Contents();
          }
          return COMPLETE, c;
      }
    }

    /** The loop of build_tlv_buffer over the tokens. */
    method WalkTokens(tokens: seq<Token>) returns (status: Status, param: Id, parent: Id, negated: bool)
      requires Valid() && tokens != []
      modifies `values, buff, buff.b
      ensures Valid() && (buff.b == old(buff.b) || fresh(buff.b))
      ensures var w := WalkFrom(env, old(cursor), tokens);
              && Abs() == Collected(env.tree, old(Abs()), w.leaves)
              && status == w.status
              && (status == COMPLETE ==> param == w.param && parent == w.parent && negated == w.negated)
      ensures var leaves := WalkFrom(env, old(cursor), tokens).leaves;
              && Recorded(env, old(buff.Contents()), leaves, buff.Contents())
              && Held(old(values), leaves, values)
    {
      ghost var start := Abs();
      LeavesAreRecorded(env, start, tokens);
      ghost var done: seq<(Id, string)> := [];
      status, param, parent, negated := COMPLETE, cursor, cursor, false;
      var i := 0;
      NothingWalked(env, start, tokens);
      while i < |tokens|
        invariant status == COMPLETE
        invariant Valid() && (buff.b == old(buff.b) || fresh(buff.b))
        invariant WalkedSoFar(env, start, Abs(), tokens, i, param, parent, done, negated)
        decreases |tokens| - i
      {
        var next;
        status, next := WalkOne(tokens, i, param, parent, negated, start, done);
        if status != COMPLETE {
          return;
        }
        done := done + Taken(env.tree, next, tokens[i].text);
        negated := negated || env.tree[next].kind.NoCmd?;
        param, parent := next, param;
        i := i + 1;
      }
      WalkIsDone(env, start, Abs(), tokens, param, parent, done, negated);
    }

    /** One round of the loop. */
    method WalkOne(tokens: seq<Token>, i: nat, param: Id, parent: Id, negated: bool,
                   ghost start: State, ghost done: seq<(Id, string)>) returns (status: Status, next: Id)
      requires Valid() && i < |tokens| && WalkedSoFar(env, start, Abs(), tokens, i, param, parent, done, negated)
      modifies `values, buff, buff.b
      ensures Valid() && (buff.b == old(buff.b) || fresh(buff.b)) && next < |env.tree|
      ensures status == COMPLETE ==>
                WalkedSoFar(env, start, Abs(), tokens, i + 1, next, param,
                            done + Taken(env.tree, next, tokens[i].text), negated || env.tree[next].kind.NoCmd?)
      ensures status != COMPLETE ==>
                var w := WalkFrom(env, start.cursor, tokens);
                w.status == status && Abs() == Collected(env.tree, start, w.leaves)
    {
      ghost var now := Abs();
      status, next := TakeToken(param, tokens[i]);
      if status != COMPLETE {
        WalkFails(env, start, now, tokens, i, param, parent, done, negated);
      } else {
        WalkGoesOn(env, start, now, tokens, i, param, parent, done, negated);
      }
    }

    /** get_current_branch_hook */
    method GetCurrentBranchHook(n: Id) returns (hook: Id)
      requires EnvOk(env) && CONFIG <= n < |env.tree|
      ensures hook == Branch(env.tree, n)
      ensures CONFIG <= hook < |env.tree| && env.tree[hook].parent == ROOT && IsAncestor(env.tree, hook, n)
    {
      hook := n;
      assert ParentOk(env.tree, hook);
      while env.tree[hook].parent != ROOT
        invariant CONFIG <= hook < |env.tree| && Branch(env.tree, hook) == Branch(env.tree, n)
        invariant ParentOk(env.tree, hook)
        decreases hook
      {
        BranchStep(env.tree, hook);
        hook := env.tree[hook].parent;
        assert ParentOk(env.tree, hook);
      }
      BranchStep(env.tree, hook);
      BranchMeans(env.tree, n, hook);
    }

    /** The operation mode a handler is called with. */
    method OperationMode(n: Id, negated: bool) returns (mode: OpMode)
      requires EnvOk(env) && CONFIG <= n < |env.tree|
      ensures mode == ModeOf(env.tree, n, negated)
      ensures mode == OPERATIONAL <==> !IsAncestor(env.tree, CONFIG, n)
      ensures mode == CONFIG_DISABLE <==> negated && IsAncestor(env.tree, CONFIG, n)
    {
      var hook := GetCurrentBranchHook(n);
      InConfig(env.tree, n);
      if hook == CONFIG {
        return if negated then CONFIG_DISABLE else CONFIG_ENABLE;
      }
      return OPERATIONAL;
    }

    /** INVOKE_APPLICATION_CALLBACK_HANDLER: the handler is recorded with what it is shown. Those of
        `show history` and of the test scripts feed lines back before they return. */
    method InvokeHandler(n: Id, mode: OpMode, line: Line)
      requires Valid() && Sane(env, Abs()) && !halted && InScope(line) && n < |env.tree|
      modifies this, buff, buff.b
      ensures Valid() && (buff.b == old(buff.b) || fresh(buff.b))
      ensures var called := old(Abs()).(calls := old(calls) + [Call(n, old(buff.Contents()), mode)]);
              Abs() == FeedBack(env, called, line, env.tree[n].rerun, Fed(line, env.tree[n].rerun))
      decreases line, 2
    {
      calls := calls + [Call(n, buff.Contents(), mode)];
      FeedLinesBack(line, env.tree[n].rerun);
    }

    /** repeat_last_command, show_history_callback and run_test_case: lines go to the parser in the middle of
        another. A test script asserts that each of them completes. */
    method FeedLinesBack(line: Line, how: Rerun)
      requires Valid() && Sane(env, Abs()) && !halted && InScope(line)
      modifies this, buff, buff.b
      ensures Valid() && (buff.b == old(buff.b) || fresh(buff.b))
      ensures Abs() == FeedBack(env, old(Abs()), line, how, Fed(line, how))
      decreases line, 1
    {
      ghost var goal := FeedBack(env, Abs(), line, how, Fed(line, how));
      var left := Fed(line, how);
      while left > 0 && !halted
        invariant Valid() && (buff.b == old(buff.b) || fresh(buff.b))
        invariant FeedsTo(env, Abs(), line, how, left, goal)
        decreases left
      {
        left := FeedOneBack(line, how, left, goal);
      }
      FeedBackEnds(env, Abs(), line, how, left, goal);
    }

    /** One of the lines fed back. */
    method FeedOneBack(line: Line, how: Rerun, left: nat, ghost goal: State) returns (fewer: nat)
      requires Valid() && !halted && 0 < left && FeedsTo(env, Abs(), line, how, left, goal)
      modifies this, buff, buff.b
      ensures Valid() && (buff.b == old(buff.b) || fresh(buff.b))
      ensures fewer == left - 1 && FeedsTo(env, Abs(), line, how, fewer, goal)
      decreases line, 0
    {
      FeedBackStep(env, Abs(), line, how, left, goal);
      var status := ParseInputCmd(line.reruns[Fed(line, how) - left]);
      if how.Script? && status != COMPLETE {
        halted := true;
      }
      fewer := left - 1;
    }

    /** The "?" case of build_tlv_buffer, with display_sub_options_callback. */
    method DoSuboptions(parent: Id)
      requires Valid() && !halted && OnTree(env.tree, parent)
      modifies this, buff, buff.b
      ensures Valid() && (buff.b == old(buff.b) || fresh(buff.b))
      ensures Abs() == AskSuboptions(env.tree, old(Abs()), parent)
    {
      buff.MarkCheckpoint();
      if env.tree[parent].hasDisplay {
        CollectTlv(DUMMY);
      }
      cursor := parent;
      halted := parent == DO_HOOK;
    }

    /** The "/" case, with mode_enter_callback and, for the config hook, config_mode_enter_handler. */
    method DoEnterMode(parent: Id, negated: bool, line: Line)
      requires Valid() && !halted && InScope(line) && InTree(env.tree, parent)
      requires Sane(env, Mark(Abs()).(cursor := parent))
      modifies this, buff, buff.b
      ensures Valid() && (buff.b == old(buff.b) || fresh(buff.b))
      ensures Abs() == EnterMode(env, old(Abs()), parent, negated, line)
      decreases line, 3
    {
      if parent == ROOT {
        halted := true;
        return;
      }
      EnterCases(env, Abs(), parent, negated, line);
      var mode := OperationMode(parent, negated);
      MoveTo(parent);
      if env.tree[parent].hasCallback {
        if parent == CONFIG {
          cursor := CONFIG;
          buff.MarkCheckpoint();
        } else {
          InvokeHandler(parent, mode, line);
        }
      }
    }

    /** The checkpoint is set before the command code is appended. */
    method MoveTo(parent: Id)
      requires Valid() && InTree(env.tree, parent)
      modifies this, buff, buff.b
      ensures Valid() && (buff.b == old(buff.b) || fresh(buff.b))
      ensures Abs() == Collect(Mark(old(Abs())), CodeTlv(env.tree[parent].cmdCode)).(cursor := parent)
    {
      buff.MarkCheckpoint();
      CollectTlv(CodeTlv(env.tree[parent].cmdCode));
      cursor := parent;
    }

    /** The ordinary case: the command code is appended, then the handler runs. */
    method DoRunCommand(param: Id, negated: bool, line: Line)
      requires Valid() && Sane(env, Abs()) && !halted && InScope(line) && CONFIG <= param < |env.tree|
      modifies this, buff, buff.b
      ensures Valid() && (buff.b == old(buff.b) || fresh(buff.b))
      ensures Abs() == RunCommand(env, old(Abs()), param, negated, line)
      decreases line, 3
    {
      var hook := GetCurrentBranchHook(param);
      var mode := OperationMode(param, negated);
      if param == CONFIG {
        cursor := CONFIG;
        buff.MarkCheckpoint();
        return;
      }
      if hook != REPEAT {
        CollectTlv(CodeTlv(env.tree[param].cmdCode));
      }
      InvokeHandler(param, mode, line);
    }

    /** build_tlv_buffer */
    method BuildTlvBuffer(tokens: seq<Token>, line: Line) returns (status: Status)
      requires Valid() && Sane(env, Abs()) && !halted && InScope(line) && Walkable(cursor, tokens)
      modifies this, buff, buff.b
      ensures Valid() && (buff.b == old(buff.b) || fresh(buff.b))
      ensures (Abs(), status) == Build(env, old(Abs()), tokens, line)
      decreases line, 5
    {
      ghost var st, w := Abs(), WalkFrom(env, cursor, tokens);
      CollectedIsSane(env, st, tokens);
      var param, parent, negated;
      status, param, parent, negated := WalkTokens(tokens);
      if status == HALT {
        halted := true;
      } else if status == COMPLETE && !env.tree[param].hasCallback {
        status := INCOMPLETE_COMMAND;
      } else if status == COMPLETE {
        CompleteCommand(env, st, tokens, line);
        DoCommandCases(param, parent, negated, line, w);
      }
    }

    /** The cases of a complete command. */
    method DoCommandCases(param: Id, parent: Id, negated: bool, line: Line, ghost w: Walked)
      requires Valid() && Sane(env, Abs()) && !halted && InScope(line) && Placed(env.tree, w)
      requires w.status == COMPLETE && w.param == param && w.parent == parent && w.negated == negated
      requires Sane(env, Mark(Abs()).(cursor := EndOf(w)))
      modifies this, buff, buff.b
      ensures Valid() && (buff.b == old(buff.b) || fresh(buff.b))
      ensures Abs() == Dispatch(env, old(Abs()), w, line)
      decreases line, 4
    {
      if param == SUBOPTIONS {
        DoSuboptions(parent);
      } else if param == MODE {
        DoEnterMode(parent, negated, line);
      } else if param != EXPANSION {
        DoRunCommand(param, negated, line);
      }
    }

    /** go_one_level_up_cmd_tree */
    method GoOneLevelUp()
      requires Valid() && Sane(env, Abs()) && !halted
      modifies this, buff
      ensures Valid() && buff.b == old(buff.b)
      ensures Abs() == OneUp(env.tree, old(Abs()))
    {
      if cursor == ROOT {
        return;
      }
      if cursor == DO_HOOK {
        halted := true;
        return;
      }
      assert ParentOk(env.tree, cursor);
      if env.tree[cursor].kind.Leaf? {
        LeaveLeaf();
      }
      MoveToParent();
    }

    method MoveToParent()
      requires Valid() && cursor >= CONFIG && ParentOk(env.tree, cursor)
      modifies `cursor, buff
      ensures Valid() && buff.b == old(buff.b)
      ensures var up := old(Abs()).(cursor := env.tree[old(cursor)].parent);
              Abs() == if up.cursor == ROOT then Reset(up) else up
    {
      cursor := env.tree[cursor].parent;
      if cursor == ROOT {
        buff.Reset();
      }
    }

    /** A leaf is left: its value holder is cleared and its TLV rewound. */
    method LeaveLeaf()
      requires Valid() && Sane(env, Abs()) && !halted && cursor >= CONFIG && env.tree[cursor].kind.Leaf?
      modifies `values, buff
      ensures Valid() && buff.b == old(buff.b)
      ensures old(buff.Contents()) != []
      ensures var was := old(Abs());
              Abs() == Mark(was.(tlvs := was.tlvs[..|was.tlvs| - 1], values := was.values[cursor := ""]))
    {
      LeafIsBuffered(env.tree, values, cursor);
      values := values[cursor := ""];
      buff.Skip(-1);
      buff.MarkCheckpoint();
    }

    /** goto_top_of_cmd_tree */
    method GotoTop()
      requires Valid() && Sane(env, Abs()) && !halted
      modifies this, buff
      ensures Valid() && buff.b == old(buff.b)
      ensures Abs() == ToTop(env.tree, old(Abs()))
    {
      if cursor == ROOT {
        return;
      }
      if cursor == DO_HOOK || env.tree[cursor].kind.NoCmd? {
        halted := true;  // off the tree, or past the end of a command's name
        return;
      }
      ghost var t, held := env.tree, values;
      var n := cursor;
      assert ParentOk(t, n);
      while n != ROOT
        invariant n == ROOT || (CONFIG <= n < |t| && ParentOk(t, n))
        invariant Valid() && buff.b == old(buff.b) && Abs() == old(Abs()).(values := values)
        invariant Cleared(t, values, n) == Cleared(t, held, cursor)
        decreases n
      {
        if !env.tree[n].kind.Cmd? {
          values := values[n := ""];
        }
        n := env.tree[n].parent;
        assert n != ROOT ==> ParentOk(t, n);
      }
      cursor := ROOT;
      buff.Reset();
    }

    /** The reversal at the end of build_cmd_tree_leaves_data: swaps from both ends towards the middle. */
    method ReverseTlvs()
      requires buff.Valid() && buff.next >= 2
      modifies buff.b
      ensures buff.Valid() && buff.Contents() == Reversed(old(buff.Contents()))
    {
      var units := buff.next;
      var i, j: int := 0, units - 1;
      ghost var was := buff.Contents();
      while i < units / 2
        invariant 0 <= i <= units / 2 && j == units - 1 - i
        invariant forall k | i <= k <= j :: buff.b[k] == was[k]
        invariant forall k | 0 <= k < i || j < k < units :: buff.b[k] == was[units - 1 - k]
      {
        buff.b[i], buff.b[j] := buff.b[j], buff.b[i];
        i, j := i + 1, j - 1;
      }
      assert buff.Contents() == Reversed(was);
    }

    /** build_cmd_tree_leaves_data: walks from `dest` up to `src` by the parent pointers, collecting a TLV for
        everything that is not a command, bottom up, across whatever growth that takes; adds `src` if it is a leaf;
        and reverses what it collected. Behind the TLVs above `src` that is the whole path. */
    method BuildCmdTreeLeavesData(src: Id, dest: Id)
      requires Valid() && InTree(env.tree, dest) && src < |env.tree| && IsAncestor(env.tree, src, dest)
      modifies buff, buff.b
      ensures Valid() && (buff.b == old(buff.b) || fresh(buff.b))
      ensures TlvsAbove(env.tree, values, src) + buff.Contents()
           == if src == dest then PathTlvs(env.tree, values, dest) else Rebuilt(env, values, dest)
      ensures buff.checkpoint == 0
    {
      CollectPath(src, dest);
      ReverseCollected();
    }

    /** Everything in upward order. */
    method CollectPath(src: Id, dest: Id)
      requires Valid() && InTree(env.tree, dest) && src < |env.tree| && IsAncestor(env.tree, src, dest)
      modifies buff, buff.b
      ensures Valid() && (buff.b == old(buff.b) || fresh(buff.b)) && buff.checkpoint == 0
      ensures TlvsAbove(env.tree, values, src) + Reversed(buff.Contents())
           == if src == dest then PathTlvs(env.tree, values, dest) else Rebuilt(env, values, dest)
    {
      buff.Reset();
      CollectUpTo(src, dest);
      CollectSource(src);
    }

    method CollectSource(src: Id)
      requires Valid() && OnPath(env.tree, src) && src < |env.tree|
      modifies buff, buff.b
      ensures Valid() && (buff.b == old(buff.b) || fresh(buff.b)) && buff.checkpoint == old(buff.checkpoint)
      ensures TlvsAbove(env.tree, values, src) + Reversed(buff.Contents())
           == PathTlvs(env.tree, values, src) + Reversed(old(buff.Contents()))
    {
      SourceStep(env, values, src, buff.Contents());
      CollectLeaf(src);
    }

    method CollectLeaf(n: Id)
      requires Valid() && n < |env.tree|
      modifies buff, buff.b
      ensures Valid() && (buff.b == old(buff.b) || fresh(buff.b)) && buff.checkpoint == old(buff.checkpoint)
      ensures buff.Contents() == old(buff.Contents()) + OwnTlv(env.tree, values, n)
    {
      if env.tree[n].kind.Leaf? {
        CollectTlv(LeafTlv(env.tree, n, ValueOf(values, n)));
      } else {
        assert buff.Contents() + [] == buff.Contents();
      }
    }

    /** A buffer of less than two TLVs is its own reversal. */
    method ReverseCollected()
      requires buff.Valid()
      modifies buff.b
      ensures buff.Valid() && buff.Contents() == Reversed(old(buff.Contents()))
    {
      if buff.next >= 2 {
        ReverseTlvs();
      } else {
        assert Reversed(buff.Contents()) == buff.Contents();
      }
    }

    /** The upward walk. */
    method CollectUpTo(src: Id, dest: Id)
      requires Valid() && buff.Contents() == [] && buff.checkpoint == 0
      requires InTree(env.tree, dest) && src < |env.tree| && IsAncestor(env.tree, src, dest)
      modifies buff, buff.b
      ensures Valid() && (buff.b == old(buff.b) || fresh(buff.b)) && buff.checkpoint == 0
      ensures OnPath(env.tree, src)
      ensures PathTlvs(env.tree, values, src) + Reversed(buff.Contents())
           == if src == dest then PathTlvs(env.tree, values, dest) else Rebuilt(env, values, dest)
    {
      ghost var t := env.tree;
      var n: Id := dest;
      assert n != ROOT ==> ParentOk(t, n);
      assert Rebuilt(env, values, dest) + Reversed([]) == Rebuilt(env, values, dest);
      assert PathTlvs(t, values, dest) + Reversed([]) == PathTlvs(t, values, dest);
      while n != src
        invariant OnPath(t, n) && IsAncestor(t, src, n) && n <= dest && (n < dest ==> !t[n].kind.NoCmd?)
        invariant Valid() && (buff.b == old(buff.b) || fresh(buff.b)) && buff.checkpoint == 0
        invariant n == dest ==> buff.Contents() == []
        invariant Rebuilt(env, values, dest) == Rebuilt(env, values, n) + Reversed(buff.Contents())
        decreases n
      {
        UpStep(env, values, n, buff.Contents());
        if !env.tree[n].kind.Cmd? {
          CollectTlv(if env.tree[n].kind.Leaf? then LeafTlv(env.tree, n, ValueOf(values, n)) else env.stray(n));
        }
        n := env.tree[n].parent;
      }
      assert n < dest ==> Rebuilt(env, values, n) == PathTlvs(t, values, n);
    }

    /** The do-branch of parse_input_cmd, with the assertions it makes about where the command has led. */
    method DoFromConfig(tokens: seq<Token>, line: Line) returns (status: Status)
      requires Valid() && !halted && InScope(line) && tokens != [] && InTree(env.tree, cursor)
      modifies this, buff, buff.b
      ensures Valid() && (buff.b == old(buff.b) || fresh(buff.b))
      ensures (Abs(), status) == RunDo(env, old(Abs()), tokens, line)
      decreases line, 6
    {
      ghost var st := Abs();
      var oldCursor := cursor;
      cursor := DO_HOOK;
      buff.Reset();
      assert Path(env, AtHook(st)) == [];
      status := BuildTlvBuffer(tokens, line);
      if !halted {
        ReturnFromHook(oldCursor);
      }
    }

    /** After a do-command: either it has led elsewhere, or the user is in config mode still. */
    method ReturnFromHook(oldCursor: Id)
      requires Valid() && !halted && InTree(env.tree, oldCursor)
      modifies this, buff, buff.b
      ensures Valid() && (buff.b == old(buff.b) || fresh(buff.b))
      ensures Abs() == BackFromHook(env, old(Abs()), oldCursor)
    {
      if cursor == ROOT {
        halted := true;
      } else if cursor != DO_HOOK {
        var hook := GetCurrentBranchHook(cursor);
        halted := hook == CONFIG;
      } else {
        BackTo(oldCursor);
      }
    }

    /** The user is back at a config mode, with the TLV buffer built afresh. */
    method BackTo(oldCursor: Id)
      requires Valid() && InTree(env.tree, oldCursor)
      modifies this, buff, buff.b
      ensures Valid() && (buff.b == old(buff.b) || fresh(buff.b))
      ensures var rebuilt := Rebuilt(env, values, oldCursor);
              Abs() == old(Abs()).(cursor := oldCursor, tlvs := rebuilt, saved := rebuilt)
    {
      RebuildBuffer(oldCursor);
      cursor := oldCursor;
      buff.MarkCheckpoint();
    }

    method RebuildBuffer(dest: Id)
      requires Valid() && InTree(env.tree, dest)
      modifies buff, buff.b
      ensures Valid() && (buff.b == old(buff.b) || fresh(buff.b))
      ensures buff.Contents() == Rebuilt(env, values, dest)
    {
      RootIsAncestor(env.tree, dest);
      NothingAboveRoot(env, values);
      BuildCmdTreeLeavesData(ROOT, dest);
      assert [] + buff.Contents() == buff.Contents();
    }

    /** "do" is allowed from config mode only. */
    method HandleDo(line: Line) returns (status: Status)
      requires Valid() && !halted && InScope(line) && Classify(cursor, line.tokens) == DoCommand
      modifies this, buff, buff.b
      ensures Valid() && (buff.b == old(buff.b) || fresh(buff.b))
      ensures (Abs(), status) == Handle(env, old(Abs()), line)
      decreases line, 7
    {
      status := COMPLETE;
      if cursor == DO_HOOK {
        halted := true;  // the branch lookup runs off the tree
        return;
      }
      var hook := GetCurrentBranchHook(cursor);
      if hook == CONFIG {
        status := DoFromConfig(line.tokens[1..], line);
      }
    }

    /** The tests on the first word, and what each leads to. */
    method HandleLine(line: Line) returns (status: Status)
      requires Valid() && Sane(env, Abs()) && !halted && line.tokens != [] && InScope(line)
      modifies this, buff, buff.b
      ensures Valid() && (buff.b == old(buff.b) || fresh(buff.b))
      ensures (Abs(), status) == Handle(env, old(Abs()), line)
      decreases line, 8
    {
      HandleCases(env, Abs(), line);
      status := COMPLETE;
      var tokens := line.tokens;
      var first := tokens[0].text;
      if |tokens| > 1 && "do" <= first && cursor != ROOT {
        status := HandleDo(line);
      } else if first <= "repeat" {
        FeedLinesBack(line, OneLine);
      } else if "cd.." <= first && |tokens| == 1 {
        GoOneLevelUp();
      } else if "cd" <= first && |tokens| == 1 {
        GotoTop();
      } else if "cls" <= first && |tokens| == 1 {
        // the screen is cleared
      } else if |tokens| == 4 && "run" <= first && "ut" <= tokens[1].text {
        FeedLinesBack(line, Script);
      } else {
        status := BuildTlvBuffer(tokens, line);
      }
    }

    /** parse_input_cmd, on the words of a line. */
    method ParseInputCmd(line: Line) returns (status: Status)
      requires Valid() && Sane(env, Abs()) && !halted && InScope(line)
      modifies this, buff, buff.b
      ensures Valid() && (buff.b == old(buff.b) || fresh(buff.b))
      ensures (Abs(), status) == Parse(env, old(Abs()), line) && Sane(env, Abs())
      decreases line, 9
    {
      ShadowIsExact(env, Abs(), line);
      if |line.tokens| == 0 {
        return INCOMPLETE_COMMAND;
      }
      status := HandleLine(line);
      FinishLine();
    }

    /** The end of parse_input_cmd. */
    method FinishLine()
      requires Valid()
      modifies buff
      ensures Valid() && buff.b == old(buff.b)
      ensures Abs() == Finish(old(Abs()))
    {
      if halted {
        return;
      }
      if cursor != ROOT {
        buff.RestoreCheckpoint();
      } else {
        buff.Reset();
      }
    }

    /** command_parser: one line after the other, for as long as the process lives and the lines are covered.
        The mode-buffer invariant holds at the end exactly when the run's shadow is clean. */
    method CommandParser(lines: seq<Line>)
      requires Valid() && Settled(env, Abs())
      modifies this, buff, buff.b
      ensures Valid() && (buff.b == old(buff.b) || fresh(buff.b))
      ensures Abs() == Run(env, old(Abs()), lines) && Settled(env, Abs())
      ensures Consistent(env, Abs()) <==> Clean(ShRun(env, old(ShadowOf(env, Abs())), lines))
    {
      ghost var goal := Run(env, Abs(), lines);
      RunIsExact(env, Abs(), lines);
      var i := 0;
      assert lines[0..] == lines;
      while i < |lines| && !halted && InScope(lines[i])
        invariant Valid() && (buff.b == old(buff.b) || fresh(buff.b))
        invariant RunsTo(env, Abs(), lines, i, goal)
        decreases |lines| - i
      {
        i := NextLine(lines, i, goal);
      }
    }

    /** One round of the loop. */
    method NextLine(lines: seq<Line>, i: nat, ghost goal: State) returns (next: nat)
      requires Valid() && RunsTo(env, Abs(), lines, i, goal) && i < |lines| && !halted && InScope(lines[i])
      modifies this, buff, buff.b
      ensures Valid() && (buff.b == old(buff.b) || fresh(buff.b))
      ensures next == i + 1 && RunsTo(env, Abs(), lines, next, goal)
    {
      RunStep(env, Abs(), lines[i..]);
      assert lines[i..][1..] == lines[i + 1..];
      var status := ParseInputCmd(lines[i]);
      next := i + 1;
    }
  }

  /** What a walk has appended: for each leaf, whose word both validations have accepted, its type, its name and
      the word. */
  ghost predicate Recorded(env: Env, before: seq<Tlv>, leaves: seq<(Id, string)>, now: seq<Tlv>) {
    && |now| == |before| + |leaves| && now[..|before|] == before
    && forall i | 0 <= i < |leaves| ::
         var (n, text) := leaves[i];
         && n < |env.tree| && env.tree[n].kind.Leaf?
         && env.libValid(env.tree[n].leafType, text) && env.userValid(n, text)
         && now[|before| + i] == Tlv(env.tree[n].leafType, env.tree[n].name, text)
  }

  /** The leaves hold the words, and everything else what it held. */
  ghost predicate Held(before: Values, leaves: seq<(Id, string)>, now: Values) {
    && (forall i | 0 <= i < |leaves| :: ValueOf(now, leaves[i].0) == leaves[i].1)
    && forall n: Id | forall i | 0 <= i < |leaves| :: leaves[i].0 != n :: ValueOf(now, n) == ValueOf(before, n)
  }

  lemma LeavesAreRecorded(env: Env, start: State, tokens: seq<Token>)
    requires EnvOk(env) && OnTree(env.tree, start.cursor) && tokens != []
    ensures var leaves := WalkFrom(env, start.cursor, tokens).leaves;
            var now := Collected(env.tree, start, leaves);
            Recorded(env, start.tlvs, leaves, now.tlvs) && Held(start.values, leaves, now.values)
  {
    var leaves := WalkFrom(env, start.cursor, tokens).leaves;
    TakenValuesAreValid(env, start.cursor, start.cursor, tokens);
    ValidIsRecorded(env, start.tlvs, leaves);
    HoldersAfterWalk(env, start.values, start.cursor, start.cursor, tokens);
  }

  lemma ValidIsRecorded(env: Env, before: seq<Tlv>, leaves: seq<(Id, string)>)
    requires LeavesOk(env.tree, leaves)
    requires forall leaf | leaf in leaves ::
               leaf.0 < |env.tree| && env.libValid(env.tree[leaf.0].leafType, leaf.1) && env.userValid(leaf.0, leaf.1)
    ensures Recorded(env, before, leaves, before + LeafTlvs(env.tree, leaves))
  {
    RecordsAre(env.tree, leaves);
    var now := before + LeafTlvs(env.tree, leaves);
    forall i | 0 <= i < |leaves|
      ensures now[|before| + i] == LeafTlvs(env.tree, leaves)[i] && leaves[i] in leaves
    {}
  }

  function Reversed<T>(s: seq<T>): (r: seq<T>)
    ensures |r| == |s|
  {
    seq(|s|, i requires 0 <= i < |s| => s[|s| - 1 - i])
  }

  ghost predicate OnPath(t: Tree, n: Id) {
    n == ROOT || (CONFIG <= n < |t| && ParentOk(t, n))
  }

  lemma UpStep(env: Env, values: Values, n: Id, collected: seq<Tlv>)
    requires EnvOk(env) && OnPath(env.tree, n) && n != ROOT
    ensures OnPath(env.tree, env.tree[n].parent) && env.tree[n].parent < n
    ensures var p := env.tree[n];
            var own := if p.kind.NoCmd? then [env.stray(n)] else OwnTlv(env.tree, values, n);
            Rebuilt(env, values, n) + Reversed(collected)
            == Rebuilt(env, values, p.parent) + Reversed(collected + own)
  {
    var t, p := env.tree, env.tree[n];
    var own := if p.kind.NoCmd? then [env.stray(n)] else OwnTlv(t, values, n);
    assert p.parent != ROOT ==> ParentOk(t, p.parent);
    assert Reversed(collected + own) == own + Reversed(collected);
    assert Rebuilt(env, values, p.parent) == PathTlvs(t, values, p.parent);
    assert Rebuilt(env, values, n) == PathTlvs(t, values, p.parent) + own;
    Associate(PathTlvs(t, values, p.parent), own, Reversed(collected));
  }

  /** The leaf TLVs of the path above `src`. */
  ghost function TlvsAbove(t: Tree, values: Values, src: Id): seq<Tlv>
    requires src < |t|
  {
    if src == ROOT then [] else PathTlvs(t, values, t[src].parent)
  }

  /** The leaf at the upper end comes last, and first after the reversal. */
  lemma SourceStep(env: Env, values: Values, src: Id, collected: seq<Tlv>)
    requires EnvOk(env) && OnPath(env.tree, src) && src < |env.tree|
    ensures PathTlvs(env.tree, values, src) + Reversed(collected)
         == TlvsAbove(env.tree, values, src) + Reversed(collected + OwnTlv(env.tree, values, src))
  {
    var t, own := env.tree, OwnTlv(env.tree, values, src);
    assert Reversed(collected + own) == own + Reversed(collected);
    assert PathTlvs(t, values, src) == TlvsAbove(t, values, src) + own;
    Associate(TlvsAbove(t, values, src), own, Reversed(collected));
  }

  lemma NothingAboveRoot(env: Env, values: Values)
    requires EnvOk(env)
    ensures TlvsAbove(env.tree, values, ROOT) == [] && PathTlvs(env.tree, values, ROOT) == Rebuilt(env, values, ROOT)
  {}

  lemma {:induction false} RootIsAncestor(t: Tree, n: Id)
    requires WellFormed(t) && InTree(t, n)
    ensures IsAncestor(t, ROOT, n)
    decreases n
  {
    if n != ROOT {
      assert ParentOk(t, n);
      RootIsAncestor(t, t[n].parent);
    }
  }

  /** Running the lines from the i-th on leads from here to `goal`. */
  ghost predicate RunsTo(env: Env, now: State, lines: seq<Line>, i: nat, goal: State) {
    i <= |lines| && Settled(env, now) && Run(env, now, lines[i..]) == goal
  }

  /** Feeding the last `left` lines back leads from here to `goal`. */
  ghost predicate FeedsTo(env: Env, now: State, line: Line, how: Rerun, left: nat, goal: State) {
    && EnvOk(env) && InScope(line) && left <= Fed(line, how) && Sane(env, now)
    && FeedBack(env, now, line, how, left) == goal
  }

  lemma FeedBackStep(env: Env, now: State, line: Line, how: Rerun, left: nat, goal: State)
    requires FeedsTo(env, now, line, how, left, goal) && !now.halted && left > 0
    ensures var (next, status) := Parse(env, now, line.reruns[Fed(line, how) - left]);
            FeedsTo(env, next.(halted := next.halted || (how.Script? && status != COMPLETE)), line, how, left - 1, goal)
  {
    FeedBackNext(env, now, line, how, left);
    ShadowIsExact(env, now, line.reruns[Fed(line, how) - left]);
  }

  lemma FeedBackEnds(env: Env, now: State, line: Line, how: Rerun, left: nat, goal: State)
    requires FeedsTo(env, now, line, how, left, goal) && (now.halted || left == 0)
    ensures now == goal
  {}

  lemma CollectedIsSane(env: Env, st: State, tokens: seq<Token>)
    requires EnvOk(env) && Sane(env, st) && !st.halted && Walkable(st.cursor, tokens)
    ensures var w := WalkFrom(env, st.cursor, tokens);
            var collected := Collected(env.tree, st, w.leaves);
            && Sane(env, collected)
            && (w.status == COMPLETE ==> Sane(env, Mark(collected).(cursor := EndOf(w))))
  {
    OneShadow(env, st, ShadowOf(env, st));
    CollectedMirrors(env, st, ShadowOf(env, st), tokens);
  }

  lemma LeafIsBuffered(t: Tree, values: Values, n: Id)
    requires WellFormed(t) && CONFIG <= n < |t| && t[n].kind.Leaf?
    ensures PathTlvs(t, values, n) != []
  {
    assert ParentOk(t, n);
  }

  lemma LeavesAreParams(t: Tree, c: Id)
    requires WellFormed(t) && c < |t| && t[c].kind.Leaf?
    ensures c >= CONFIG
  {}

  /** How one token is received at a param. */
  ghost function StepStatus(env: Env, at: Id, token: Token): Status
    requires EnvOk(env) && at < |env.tree|
  {
    match MatchAt(env.tree, at, token)
    case TooMany => HALT
    case NotFound => CMD_NOT_FOUND
    case Found(c) =>
      MatchIsInTable(env.tree, at, token);
      if !env.tree[c].kind.Leaf? then COMPLETE
      else if !env.libValid(env.tree[c].leafType, token.text) then INVALID_LEAF
      else if !env.userValid(c, token.text) then USER_INVALID_LEAF
      else COMPLETE
  }

  /** What the round for token i does to the walk still to be done. */
  lemma StepOfLoop(env: Env, param: Id, parent: Id, tokens: seq<Token>, i: nat,
                   done: seq<(Id, string)>, negated: bool)
    requires EnvOk(env) && param < |env.tree| && i < |tokens|
    ensures var left := Prepend(done, negated, Walk(env, param, parent, tokens[i..]));
            var status := StepStatus(env, param, tokens[i]);
            if status != COMPLETE then left.status == status && left.leaves == done
            else
              var c := MatchAt(env.tree, param, tokens[i]).param;
              && c < |env.tree|
              && left == Prepend(done + Taken(env.tree, c, tokens[i].text), negated || env.tree[c].kind.NoCmd?,
                                 Walk(env, c, param, tokens[i + 1..]))
  {
    WalkStep(env, param, parent, tokens[i..]);
    assert tokens[i..][1..] == tokens[i + 1..] && tokens[i..][0] == tokens[i];
    assert done + [] == done;
    if StepStatus(env, param, tokens[i]) == COMPLETE {
      var c := MatchAt(env.tree, param, tokens[i]).param;
      Associate(done, [(c, tokens[i].text)], Walk(env, c, param, tokens[i + 1..]).leaves);
    }
  }

  lemma CollectMore(t: Tree, start: State, done: seq<(Id, string)>, more: seq<(Id, string)>)
    requires LeavesOk(t, done) && LeavesOk(t, more)
    ensures LeavesOk(t, done + more)
    ensures Collected(t, Collected(t, start, done), more) == Collected(t, start, done + more)
  {
    JoinTaken(t, start.values, done, more, start.tlvs);
  }

  /** The state of build_tlv_buffer's loop before token i: what is left to walk, after what was collected. */
  ghost predicate WalkedSoFar(env: Env, start: State, now: State, tokens: seq<Token>, i: int, param: Id, parent: Id,
                              done: seq<(Id, string)>, negated: bool)
  {
    && EnvOk(env) && OnTree(env.tree, start.cursor) && tokens != [] && 0 <= i <= |tokens|
    && param < |env.tree| && parent < |env.tree|
    && LeavesOk(env.tree, done) && now == Collected(env.tree, start, done)
    && WalkFrom(env, start.cursor, tokens) == Prepend(done, negated, Walk(env, param, parent, tokens[i..]))
  }

  lemma NothingWalked(env: Env, start: State, tokens: seq<Token>)
    requires EnvOk(env) && OnTree(env.tree, start.cursor) && tokens != []
    ensures WalkedSoFar(env, start, start, tokens, 0, start.cursor, start.cursor, [], false)
  {
    var w := WalkFrom(env, start.cursor, tokens);
    assert start.tlvs + [] == start.tlvs;
    assert tokens[0..] == tokens && [] + w.leaves == w.leaves;
  }

  lemma WalkGoesOn(env: Env, start: State, now: State, tokens: seq<Token>, i: nat, param: Id, parent: Id,
                   done: seq<(Id, string)>, negated: bool)
    requires WalkedSoFar(env, start, now, tokens, i, param, parent, done, negated) && i < |tokens|
    requires StepStatus(env, param, tokens[i]) == COMPLETE
    ensures var c := MatchAt(env.tree, param, tokens[i]).param;
            && c < |env.tree| && LeavesOk(env.tree, Taken(env.tree, c, tokens[i].text))
            && var own := Taken(env.tree, c, tokens[i].text);
               WalkedSoFar(env, start, Collected(env.tree, now, own), tokens, i + 1, c, param,
                           done + own, negated || env.tree[c].kind.NoCmd?)
  {
    StepOfLoop(env, param, parent, tokens, i, done, negated);
    var c := MatchAt(env.tree, param, tokens[i]).param;
    if env.tree[c].kind.Leaf? {
      LeavesAreParams(env.tree, c);
    }
    CollectMore(env.tree, start, done, Taken(env.tree, c, tokens[i].text));
  }

  lemma WalkFails(env: Env, start: State, now: State, tokens: seq<Token>, i: nat, param: Id, parent: Id,
                  done: seq<(Id, string)>, negated: bool)
    requires WalkedSoFar(env, start, now, tokens, i, param, parent, done, negated) && i < |tokens|
    requires StepStatus(env, param, tokens[i]) != COMPLETE
    ensures var w := WalkFrom(env, start.cursor, tokens);
            w.status == StepStatus(env, param, tokens[i]) && now == Collected(env.tree, start, w.leaves)
  {
    StepOfLoop(env, param, parent, tokens, i, done, negated);
  }

  lemma WalkIsDone(env: Env, start: State, now: State, tokens: seq<Token>, param: Id, parent: Id,
                   done: seq<(Id, string)>, negated: bool)
    requires WalkedSoFar(env, start, now, tokens, |tokens|, param, parent, done, negated)
    ensures WalkFrom(env, start.cursor, tokens) == Walked(COMPLETE, param, parent, done, negated)
  {
    assert tokens[|tokens|..] == [];
    assert done + [] == done;
  }

  /** One more option scanned. */
  lemma Snoc(t: Tree, options: seq<Id>, i: nat, token: string)
    requires InTable(t, options) && i < |options|
    ensures var c := options[i];
            var named := !t[c].kind.Leaf? && t[c].name == token;
            && (FirstExact(t, options[..i], token) == i && !named ==> FirstExact(t, options[..i + 1], token) == i + 1)
            && Abbreviated(t, options[..i + 1], token)
            == Abbreviated(t, options[..i], token) + (if !t[c].kind.Leaf? && token <= t[c].name then [c] else [])
            && LastLeaf(t, options[..i + 1]) == if t[c].kind.Leaf? then Found(c) else LastLeaf(t, options[..i])
  {
    var c := options[i];
    assert options[..i + 1] == options[..i] + [c];
    FirstExactAppend(t, options[..i], [c], token);
    AbbreviatedAppend(t, options[..i], [c], token);
    LastLeafAppend(t, options[..i], [c]);
    assert [c][1..] == [] && [c][..0] == [];
  }

  lemma ExactAt(t: Tree, options: seq<Id>, i: nat, token: string)
    requires InTable(t, options) && i < |options| && FirstExact(t, options[..i], token) == i
    requires !t[options[i]].kind.Leaf? && t[options[i]].name == token
    ensures FirstExact(t, options, token) == i
  {
    assert options == options[..i] + options[i..];
    FirstExactAppend(t, options[..i], options[i..], token);
  }

  lemma TooManyAt(t: Tree, options: seq<Id>, i: nat, token: string)
    requires InTable(t, options) && i <= |options| && FirstExact(t, options[..i], token) == i
    requires |Abbreviated(t, options[..i], token)| >= POSSIBILITY_ARRAY_SIZE
    ensures |Abbreviated(t, options[..FirstExact(t, options, token)], token)| >= POSSIBILITY_ARRAY_SIZE
  {
    assert options == options[..i] + options[i..];
    FirstExactAppend(t, options[..i], options[i..], token);
    var k := FirstExact(t, options, token);
    assert options[..k] == options[..i] + options[i..k];
    AbbreviatedAppend(t, options[..i], options[i..k], token);
  }
}
