/** What one command line does, told from its words alone (CommandParser/parser.c:300-394). */
module CliWords {
  import opened CommandTree
  import opened CommandWalk
  import opened CliModel
  import opened CliShadow
  import opened CliTheorems

  // ---- the words ----

  lemma RepeatLetters(first: string)
    requires first <= "repeat" && first != ""
    ensures first[0] == 'r' && (|first| > 1 ==> first[1] == 'e')
  {
    assert "repeat"[0] == 'r' && "repeat"[1] == 'e';
  }

  /** No two of the tests on the first word hold of one word, but for those of `cd..` and `cd`. */
  lemma WordsAreApart(first: string)
    ensures "do" <= first ==> !(first <= "repeat") && !("cd" <= first) && !("run" <= first) && !("config" <= first)
    ensures first <= "repeat" ==>
              !("cd" <= first) && !("cls" <= first) && !("run" <= first) && !("config" <= first)
    ensures "cd.." <= first ==> "cd" <= first
    ensures "cd" <= first ==> !("cls" <= first)
    ensures "run" <= first ==> !("config" <= first)
  {
    assert "do"[0] == 'd' && "cd"[0] == 'c' && "cd"[1] == 'd' && "cls"[0] == 'c' && "cls"[1] == 'l';
    assert "run"[0] == 'r' && "run"[1] == 'u' && "config"[0] == 'c' && "cd.."[..2] == "cd";
    if first <= "repeat" && first != "" {
      RepeatLetters(first);
    }
    if "cd" <= first {
      assert first[1] == 'd';
    }
  }

  /** Which words are handled how. The order of the tests matters for `cd..` and `cd` only. */
  lemma WordsDecide(cursor: Id, tokens: seq<Token>)
    requires tokens != []
    ensures var first, how := tokens[0].text, Classify(cursor, tokens);
            && (how == DoCommand <==> |tokens| > 1 && "do" <= first && cursor != ROOT)
            && (how == Repeat <==> first <= "repeat")
            && (how == CdUp <==> |tokens| == 1 && "cd.." <= first)
            && (how == CdTop <==> |tokens| == 1 && "cd" <= first && !("cd.." <= first))
            && (how == ClearScreen <==> |tokens| == 1 && "cls" <= first)
            && (how == RunUnitTest <==> |tokens| == 4 && "run" <= first && "ut" <= tokens[1].text)
            && (how == LoadFile <==> |tokens| == 3 && "config" <= first && "load" <= tokens[1].text)
            && how != Nothing
  {
    WordsAreApart(tokens[0].text);
  }

  /** Where a line, typed or fed back, may start: any state a run can reach that has not halted. */
  ghost predicate Ready(env: Env, st: State, line: Line) {
    EnvOk(env) && InScope(line) && !st.halted && Sane(env, st)
  }

  lemma StaysReady(env: Env, st: State, line: Line)
    requires Ready(env, st, line)
    ensures Sane(env, Parse(env, st, line).0)
  {
    ShadowIsExact(env, st, line);
  }

  // ---- lines that are not walked ----

  lemma EmptyLine(env: Env, st: State, line: Line)
    requires Ready(env, st, line) && line.tokens == []
    ensures Parse(env, st, line) == (st, INCOMPLETE_COMMAND)
  {}

  /** The end of a line, at its plainest: back to the checkpoint in a mode, to an empty buffer at the root. */
  lemma ClearLine(env: Env, st: State, line: Line)
    requires Ready(env, st, line) && |line.tokens| == 1 && "cls" <= line.tokens[0].text
    ensures Parse(env, st, line)
         == (if st.cursor == ROOT then st.(tlvs := [], saved := []) else st.(tlvs := st.saved), COMPLETE)
  {
    WordsDecide(st.cursor, line.tokens);
    HandleCases(env, st, line);
  }

  /** `repeat`, in any mode: the last command is carried out once more, and nothing else. */
  lemma RepeatLine(env: Env, st: State, line: Line)
    requires Ready(env, st, line) && line.tokens != [] && line.tokens[0].text <= "repeat"
    ensures Parse(env, st, line)
         == (Finish(if line.reruns == [] then st else Parse(env, st, line.reruns[0]).0), COMPLETE)
  {
    WordsDecide(st.cursor, line.tokens);
    HandleCases(env, st, line);
    FeedOneLine(env, st, line);
  }

  lemma FeedNoLine(env: Env, st: State, line: Line, how: Rerun)
    requires EnvOk(env) && InScope(line) && (!st.halted ==> OnTree(env.tree, st.cursor))
    ensures FeedBack(env, st, line, how, 0) == st
  {}

  /** A handler of this kind feeds back the first of its lines, however many there are. */
  lemma FeedOneLine(env: Env, st: State, line: Line)
    requires EnvOk(env) && InScope(line) && !st.halted && OnTree(env.tree, st.cursor)
    ensures FeedBack(env, st, line, OneLine, Fed(line, OneLine))
         == if line.reruns == [] then st else Parse(env, st, line.reruns[0]).0
  {
    FeedNoLine(env, st, line, OneLine);
    if line.reruns != [] {
      FeedBackNext(env, st, line, OneLine, 1);
      FeedNoLine(env, Parse(env, st, line.reruns[0]).0, line, OneLine);
    }
  }

  /** Feeding back depends on the lines still to come only. */
  lemma {:induction false} SameRest(env: Env, st: State, a: Line, b: Line, left: nat)
    requires EnvOk(env) && InScope(a) && InScope(b) && (!st.halted ==> OnTree(env.tree, st.cursor))
    requires left <= |a.reruns| && left <= |b.reruns|
    requires a.reruns[|a.reruns| - left..] == b.reruns[|b.reruns| - left..]
    ensures FeedBack(env, st, a, Script, left) == FeedBack(env, st, b, Script, left)
    decreases left
  {
    if left > 0 && !st.halted {
      var i, j := |a.reruns| - left, |b.reruns| - left;
      assert a.reruns[i] == a.reruns[i..][0] && b.reruns[j] == b.reruns[j..][0];
      assert a.reruns[i + 1..] == a.reruns[i..][1..] && b.reruns[j + 1..] == b.reruns[j..][1..];
      FeedBackNext(env, st, a, Script, left);
      FeedBackNext(env, st, b, Script, left);
      var (next, status) := Parse(env, st, a.reruns[i]);
      SameRest(env, next.(halted := next.halted || status != COMPLETE), a, b, left - 1);
    } else {
      assert FeedBack(env, st, a, Script, left) == st == FeedBack(env, st, b, Script, left);
    }
  }

  /** A test script with its first line done. */
  function Shorter(line: Line): (rest: Line)
    requires line.reruns != []
    ensures InScope(line) ==> InScope(rest)
  {
    Line(line.tokens, line.reruns[1..])
  }

  /** Feeding back the last `left` lines leads to `goal`. */
  ghost predicate LeadsTo(env: Env, st: State, line: Line, left: nat, goal: State) {
    && EnvOk(env) && InScope(line) && left <= |line.reruns| && (!st.halted ==> OnTree(env.tree, st.cursor))
    && FeedBack(env, st, line, Script, left) == goal
  }

  lemma ScriptGoesOn(env: Env, st: State, line: Line, left: nat, next: State, goal: State)
    requires EnvOk(env) && InScope(line) && !st.halted && OnTree(env.tree, st.cursor) && 0 < left <= |line.reruns|
    requires Parse(env, st, line.reruns[|line.reruns| - left]) == (next, COMPLETE) && !next.halted
    requires LeadsTo(env, next, line, left - 1, goal)
    ensures LeadsTo(env, st, line, left, goal)
  {}

  lemma ScriptStops(env: Env, st: State, line: Line, left: nat)
    requires EnvOk(env) && InScope(line) && !st.halted && OnTree(env.tree, st.cursor) && 0 < left <= |line.reruns|
    requires var (next, status) := Parse(env, st, line.reruns[|line.reruns| - left]);
             next.halted || status != COMPLETE
    ensures FeedBack(env, st, line, Script, left)
         == Parse(env, st, line.reruns[|line.reruns| - left]).0.(halted := true)
  {
    FeedBackNext(env, st, line, Script, left);
    FeedHalted(env, Parse(env, st, line.reruns[|line.reruns| - left]).0.(halted := true), line, left - 1);
  }

  /** What is left of a script after its first line is the shorter script. */
  lemma ShorterRest(env: Env, st: State, line: Line, goal: State)
    requires InScope(line) && line.reruns != [] && LeadsTo(env, st, Shorter(line), |line.reruns| - 1, goal)
    ensures LeadsTo(env, st, line, |line.reruns| - 1, goal)
  {
    assert line.reruns[1..] == Shorter(line).reruns[0..];
    SameRest(env, st, line, Shorter(line), |line.reruns| - 1);
  }

  lemma FeedHalted(env: Env, st: State, line: Line, left: nat)
    requires EnvOk(env) && InScope(line) && st.halted && left <= |line.reruns|
    ensures FeedBack(env, st, line, Script, left) == st
  {}

  lemma ScriptCase(env: Env, st: State, line: Line)
    requires Ready(env, st, line) && IsScript(line.tokens)
    ensures Parse(env, st, line) == (Finish(FeedBack(env, st, line, Script, |line.reruns|)), COMPLETE)
  {
    WordsDecide(st.cursor, line.tokens);
    HandleCases(env, st, line);
  }

  lemma ScriptEnds(env: Env, st: State, line: Line, goal: State)
    requires Ready(env, st, line) && IsScript(line.tokens) && LeadsTo(env, st, line, |line.reruns|, goal)
    ensures Parse(env, st, line) == (Finish(goal), COMPLETE)
  {
    ScriptCase(env, st, line);
  }

  ghost predicate IsScript(tokens: seq<Token>) {
    |tokens| == 4 && "run" <= tokens[0].text && "ut" <= tokens[1].text
  }

  /** Feeding back a script is feeding back its first line, and then the rest of it. */
  lemma ScriptFeeds(env: Env, st: State, line: Line, next: State, goal: State)
    requires EnvOk(env) && InScope(line) && !st.halted && OnTree(env.tree, st.cursor) && line.reruns != []
    requires Parse(env, st, line.reruns[0]) == (next, COMPLETE) && !next.halted
    requires LeadsTo(env, next, Shorter(line), |line.reruns| - 1, goal)
    ensures LeadsTo(env, st, line, |line.reruns|, goal)
  {
    ShorterRest(env, next, line, goal);
    ScriptGoesOn(env, st, line, |line.reruns|, next, goal);
  }

  lemma ScriptLineGoesOn(env: Env, st: State, line: Line, next: State)
    requires Ready(env, st, line) && IsScript(line.tokens) && line.reruns != []
    requires Parse(env, st, line.reruns[0]) == (next, COMPLETE) && !next.halted
    ensures Ready(env, next, Shorter(line)) && Parse(env, st, line) == Parse(env, next, Shorter(line))
  {
    StaysReady(env, st, line.reruns[0]);
    var goal := FeedBack(env, next, Shorter(line), Script, |line.reruns| - 1);
    ScriptFeeds(env, st, line, next, goal);
    ScriptEnds(env, st, line, goal);
    ScriptEnds(env, next, Shorter(line), goal);
  }

  /** `run ut`: a script is its first line, and then the same command with the rest of the script. The first line
      that does not complete fails an assertion. */
  lemma ScriptLine(env: Env, st: State, line: Line)
    requires Ready(env, st, line)
    requires |line.tokens| == 4 && "run" <= line.tokens[0].text && "ut" <= line.tokens[1].text
    ensures line.reruns == [] ==>
              Parse(env, st, line)
              == (if st.cursor == ROOT then st.(tlvs := [], saved := []) else st.(tlvs := st.saved), COMPLETE)
    ensures line.reruns != [] ==>
              var (next, status) := Parse(env, st, line.reruns[0]);
              if next.halted || status != COMPLETE then Parse(env, st, line) == (next.(halted := true), COMPLETE)
              else Ready(env, next, Shorter(line)) && Parse(env, st, line) == Parse(env, next, Shorter(line))
  {
    if line.reruns == [] {
      ScriptCase(env, st, line);
      FeedNoLine(env, st, line, Script);
    } else {
      var (next, status) := Parse(env, st, line.reruns[0]);
      if next.halted || status != COMPLETE {
        ScriptCase(env, st, line);
        ScriptStops(env, st, line, |line.reruns|);
      } else {
        ScriptLineGoesOn(env, st, line, next);
      }
    }
  }

  /** `cd..`: nothing but the last leaf and its record are given up, and the checkpoint then is the buffer. */
  lemma ClimbLine(env: Env, st: State, line: Line)
    requires Ready(env, st, line) && |line.tokens| == 1 && "cd.." <= line.tokens[0].text
    ensures var (after, status) := Parse(env, st, line);
            && status == COMPLETE && after.calls == st.calls
            && (st.cursor == ROOT ==> after == st.(tlvs := [], saved := []))
            && (st.cursor == DO_HOOK ==> after.halted)
            && (st.cursor >= CONFIG ==>
                  var p, shorter := env.tree[st.cursor], if st.tlvs == [] then [] else st.tlvs[..|st.tlvs| - 1];
                  && !after.halted && after.cursor == p.parent
                  && after.values == (if p.kind.Leaf? then st.values[st.cursor := ""] else st.values)
                  && after.tlvs == after.saved
                  == if p.parent == ROOT then [] else if p.kind.Leaf? then shorter else st.saved)
  {
    WordsDecide(st.cursor, line.tokens);
    HandleCases(env, st, line);
  }

  /** Every leaf on the way up is cleared, nothing else is. */
  lemma {:induction false} ClearedMeans(t: Tree, values: Values, n: Id, x: Id)
    requires WellFormed(t) && InTree(t, n) && !t[n].kind.NoCmd?
    ensures ValueOf(Cleared(t, values, n), x)
         == if CONFIG <= x < |t| && t[x].kind.Leaf? && IsAncestor(t, x, n) then "" else ValueOf(values, x)
    decreases n
  {
    if n != ROOT {
      assert ParentOk(t, n);
      var above := if t[n].kind.Cmd? then values else values[n := ""];
      ClearedMeans(t, above, t[n].parent, x);
      assert IsAncestor(t, x, n) <==> x == n || IsAncestor(t, x, t[n].parent);
    } else {
      assert CONFIG <= x ==> !IsAncestor(t, x, ROOT);
    }
  }

  /** `cd`: to the root with an empty buffer and every leaf of the path cleared; from the do-hook, or from a `no`,
      the parser does not come back. */
  lemma JumpLine(env: Env, st: State, line: Line)
    requires Ready(env, st, line)
    requires |line.tokens| == 1 && "cd" <= line.tokens[0].text && !("cd.." <= line.tokens[0].text)
    ensures var (after, status) := Parse(env, st, line);
            && status == COMPLETE && after.calls == st.calls
            && (after.halted <==> st.cursor == DO_HOOK || env.tree[st.cursor].kind.NoCmd?)
            && (!after.halted ==>
                  && after.cursor == ROOT && after.tlvs == after.saved == []
                  && (forall x: Id ::
                        ValueOf(after.values, x)
                        == if CONFIG <= x < |env.tree| && env.tree[x].kind.Leaf? && IsAncestor(env.tree, x, st.cursor)
                           then "" else ValueOf(st.values, x)))
  {
    WordsDecide(st.cursor, line.tokens);
    HandleCases(env, st, line);
    if !Parse(env, st, line).0.halted {
      forall x: Id
        ensures ValueOf(Parse(env, st, line).0.values, x)
             == if CONFIG <= x < |env.tree| && env.tree[x].kind.Leaf? && IsAncestor(env.tree, x, st.cursor)
                then "" else ValueOf(st.values, x)
      {
        ClearedMeans(env.tree, st.values, st.cursor, x);
      }
    }
  }

  // ---- one command ----

  /** The handler of `n` runs in the state `at`: it is shown the buffer, told how `n` was reached, and may feed
      lines back, one or a script's. */
  ghost predicate HandlerRan(env: Env, at: State, n: Id, negated: bool, line: Line, after: State)
    requires EnvOk(env) && InScope(line) && !at.halted && OnTree(env.tree, at.cursor) && n < |env.tree|
  {
    var mode := if !IsAncestor(env.tree, CONFIG, n) then OPERATIONAL
                else if negated then CONFIG_DISABLE else CONFIG_ENABLE;
    var shown := State(at.cursor, at.tlvs, at.saved, at.values, at.calls + [Call(n, at.tlvs, mode)], false);
    match env.tree[n].rerun
    case Inert => after == shown
    case OneLine => after == if line.reruns == [] then shown else Parse(env, shown, line.reruns[0]).0
    case Script => after == FeedBack(env, shown, line, Script, |line.reruns|)
  }

  lemma InvokeRuns(env: Env, st: State, n: Id, negated: bool, line: Line)
    requires EnvOk(env) && InScope(line) && !st.halted && OnTree(env.tree, st.cursor) && CONFIG <= n < |env.tree|
    ensures HandlerRan(env, st, n, negated, line, Invoke(env, st, n, negated, line))
  {
    InConfig(env.tree, n);
    var called := Called(env.tree, st, n, negated);
    var how := env.tree[n].rerun;
    assert Invoke(env, st, n, negated, line) == FeedBack(env, called, line, how, Fed(line, how));
    FeedOneLine(env, called, line);
    FeedNoLine(env, called, line, how);
  }

  /** The buffer with the code of `n` behind it. */
  function Coded(t: Tree, tlvs: seq<Tlv>, n: Id): seq<Tlv>
    requires n < |t|
  {
    tlvs + [Tlv(INT, "CMDCODE", Decimal(t[n].cmdCode))]
  }

  /** A complete command, by what it ends in; `got` is the state with the walk's leaves. */
  ghost predicate Completed(env: Env, got: State, w: Walked, line: Line, after: State)
    requires EnvOk(env) && InScope(line) && !got.halted && OnTree(env.tree, got.cursor) && Placed(env.tree, w)
    requires w.status == COMPLETE
  {
    var t := env.tree;
    if w.param == SUBOPTIONS then
      var shown := got.tlvs + if t[w.parent].hasDisplay then [Tlv(INT, "", "")] else [];
      after == State(w.parent, shown, got.tlvs, got.values, got.calls, w.parent == DO_HOOK)
    else if w.param == EXPANSION then after == got
    else if w.param == CONFIG then after == got.(cursor := CONFIG, saved := got.tlvs)
    else if w.param != MODE then
      HandlerRan(env, got.(tlvs := Coded(t, got.tlvs, w.param)), w.param, w.negated, line, after)
    else if w.parent == ROOT then after.halted
    else if w.parent == CONFIG then
      after == got.(cursor := CONFIG, tlvs := Coded(t, got.tlvs, CONFIG), saved := Coded(t, got.tlvs, CONFIG))
    else
      var entered := got.(cursor := w.parent, saved := got.tlvs, tlvs := Coded(t, got.tlvs, w.parent));
      if t[w.parent].hasCallback then HandlerRan(env, entered, w.parent, w.negated, line, after)
      else after == entered
  }

  lemma DispatchCompletes(env: Env, got: State, w: Walked, line: Line)
    requires EnvOk(env) && InScope(line) && !got.halted && OnTree(env.tree, got.cursor) && Placed(env.tree, w)
    requires w.status == COMPLETE && env.tree[w.param].hasCallback && Branch(env.tree, EndOf(w)) != REPEAT
    ensures Completed(env, got, w, line, Dispatch(env, got, w, line))
  {
    var t := env.tree;
    if w.param == MODE {
      if w.parent !in {ROOT, CONFIG} {
        EnterCases(env, got, w.parent, w.negated, line);
        InvokeRuns(env, Collect(Mark(got), CodeTlv(t[w.parent].cmdCode)).(cursor := w.parent), w.parent, w.negated,
                   line);
      }
      assert Dispatch(env, got, w, line) == EnterMode(env, got, w.parent, w.negated, line);
    } else if w.param > CONFIG {
      InvokeRuns(env, Collect(got, CodeTlv(t[w.param].cmdCode)), w.param, w.negated, line);
      assert Dispatch(env, got, w, line) == RunCommand(env, got, w.param, w.negated, line);
    }
  }

  /** One command, from any place: the walk, the leaves it took, and what becomes of it. */
  ghost predicate CommandDone(env: Env, st: State, tokens: seq<Token>, line: Line, after: State, status: Status)
    requires EnvOk(env) && InScope(line) && !st.halted && OnTree(env.tree, st.cursor) && tokens != []
  {
    var w := Walk(env, st.cursor, st.cursor, tokens);
    && Placed(env.tree, w)
    && var got := State(st.cursor, st.tlvs + LeafTlvs(env.tree, w.leaves), st.saved, Store(st.values, w.leaves),
                        st.calls, false);
       if w.status == HALT then status == HALT && after == got.(halted := true)
       else if w.status != COMPLETE then status == w.status && after == got
       else if !env.tree[w.param].hasCallback then status == INCOMPLETE_COMMAND && after == got
       else status == COMPLETE && Completed(env, got, w, line, after)
  }

  lemma BuildIsDone(env: Env, st: State, tokens: seq<Token>, line: Line)
    requires Ready(env, st, line) && Walkable(st.cursor, tokens)
    ensures var (after, status) := Build(env, st, tokens, line); CommandDone(env, st, tokens, line, after, status)
  {
    var w := WalkFrom(env, st.cursor, tokens);
    if w.status == COMPLETE && env.tree[w.param].hasCallback {
      EndBranch(env, st.cursor, tokens);
      CompleteCommand(env, st, tokens, line);
      DispatchCompletes(env, Collected(env.tree, st, w.leaves), w, line);
    }
  }

  // ---- lines that are walked ----

  /** None of the words with a meaning of their own. */
  ghost predicate NoSpecialWord(cursor: Id, tokens: seq<Token>)
    requires tokens != []
  {
    var first := tokens[0].text;
    && !(|tokens| > 1 && "do" <= first && cursor != ROOT)
    && !(first <= "repeat")
    && !(|tokens| == 1 && ("cd" <= first || "cls" <= first))
    && !(|tokens| == 4 && "run" <= first && "ut" <= tokens[1].text)
    && !(|tokens| == 3 && "config" <= first && "load" <= tokens[1].text)
  }

  /** Every other line is one command from where the cursor is; `do` at the root has no meaning of its own. Then
      the buffer goes back to the checkpoint in a mode, and to nothing at the root. */
  lemma OtherLine(env: Env, st: State, line: Line) returns (done: State)
    requires Ready(env, st, line) && line.tokens != [] && NoSpecialWord(st.cursor, line.tokens)
    ensures var (after, status) := Parse(env, st, line);
            && CommandDone(env, st, line.tokens, line, done, status)
            && after == if done.halted then done
                        else if done.cursor == ROOT then done.(tlvs := [], saved := [])
                        else done.(tlvs := done.saved)
  {
    WordsDecide(st.cursor, line.tokens);
    OrdinaryLine(env, st, line);
    BuildIsDone(env, st, line.tokens, line);
    done := Build(env, st, line.tokens, line).0;
  }

  /** `do` from the do-hook runs off the tree, and outside the config branch does nothing. */
  lemma DoElsewhere(env: Env, st: State, line: Line)
    requires Ready(env, st, line) && |line.tokens| > 1 && "do" <= line.tokens[0].text && st.cursor != ROOT
    requires st.cursor >= CONFIG ==> !IsAncestor(env.tree, CONFIG, st.cursor)
    ensures Parse(env, st, line)
         == (if st.cursor == DO_HOOK then st.(halted := true) else st.(tlvs := st.saved), COMPLETE)
  {
    WordsDecide(st.cursor, line.tokens);
    if st.cursor >= CONFIG {
      InConfig(env.tree, st.cursor);
      assert Handle(env, st, line) == (st, COMPLETE);
    }
  }

  /** `do` in the config branch: the rest of the line is one command from the do-hook, on an empty buffer. If it
      leaves the cursor there, the config mode is as it was, its buffer rebuilt from the value holders; if it has
      entered a mode, that must be in another branch. */
  lemma DoInConfig(env: Env, st: State, line: Line) returns (done: State)
    requires Ready(env, st, line) && |line.tokens| > 1 && "do" <= line.tokens[0].text
    requires st.cursor >= CONFIG && IsAncestor(env.tree, CONFIG, st.cursor)
    ensures var (after, status) := Parse(env, st, line);
            var hook := State(DO_HOOK, [], [], st.values, st.calls, false);
            && CommandDone(env, hook, line.tokens[1..], line, done, status)
            && (done.halted ==> after == done)
            && (!done.halted && done.cursor == DO_HOOK ==>
                  var rebuilt := PathTlvs(env.tree, done.values, st.cursor)
                               + if env.tree[st.cursor].kind.NoCmd? then [env.stray(st.cursor)] else [];
                  after == State(st.cursor, rebuilt, rebuilt, done.values, done.calls, false))
            && (!done.halted && done.cursor != DO_HOOK ==>
                  if done.cursor == ROOT || IsAncestor(env.tree, CONFIG, done.cursor) then after.halted
                  else after == done.(tlvs := done.saved))
  {
    var hook, tokens := State(DO_HOOK, [], [], st.values, st.calls, false), line.tokens[1..];
    WordsDecide(st.cursor, line.tokens);
    InConfig(env.tree, st.cursor);
    DoLine(env, st, line);
    assert AtHook(st) == hook && PathTlvs(env.tree, st.values, DO_HOOK) == [];
    BuildIsDone(env, hook, tokens, line);
    done := Build(env, hook, tokens, line).0;
    if !done.halted && done.cursor >= CONFIG {
      InConfig(env.tree, done.cursor);
    }
  }
}
