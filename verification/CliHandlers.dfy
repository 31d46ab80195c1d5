/** What an application handler is shown (CommandParser/parser.c:234-275, cmdtlv.h:37-47). */
module CliHandlers {
  import opened CommandTree
  import opened CommandWalk
  import opened CliModel
  import opened CliShadow

  // ---- reading the buffer ----

  /** atoi on the text of a command code. */
  function Atoi(s: string): int {
    if s == [] then 0
    else if s[0] == '-' then -AtoiDigits(s[1..])
    else AtoiDigits(s)
  }

  function AtoiDigits(s: string): int {
    if s == [] then 0
    else 10 * AtoiDigits(s[..|s| - 1]) + (s[|s| - 1] as int - '0' as int)
  }

  lemma DigitIs(n: int)
    requires 0 <= n < 10
    ensures Digit(n) as int - '0' as int == n
  {}

  lemma {:induction false} AtoiOfDigits(n: int)
    requires 0 <= n
    ensures AtoiDigits(Decimal(n)) == n && Decimal(n) != [] && Decimal(n)[0] != '-'
    decreases n
  {
    DigitIs(n % 10);
    if n >= 10 {
      AtoiOfDigits(n / 10);
      assert Decimal(n)[..|Decimal(n)| - 1] == Decimal(n / 10);
    } else {
      assert [Digit(n)][..0] == [];
    }
  }

  lemma AtoiOfDecimal(n: int)
    ensures Atoi(Decimal(n)) == n
  {
    if n < 0 {
      var digits := Decimal(-n);
      AtoiOfDigits(-n);
      assert Decimal(n) == "-" + digits;
      assert ("-" + digits)[0] == '-' && ("-" + digits)[1..] == digits;
    } else {
      AtoiOfDigits(n);
    }
  }

  /** EXTRACT_CMD_CODE: the last TLV's value as a number. */
  function ExtractCmdCode(tlvs: seq<Tlv>): int
    requires tlvs != []
  {
    Atoi(tlvs[|tlvs| - 1].value)
  }

  /** The TLVs TLV_LOOP_BEGIN visits: all but the last. */
  function LoopTlvs(tlvs: seq<Tlv>): seq<Tlv>
    requires tlvs != []
  {
    tlvs[..|tlvs| - 1]
  }

  /** It is told its own command code, and to disable exactly when the command line passed a `no`. */
  ghost predicate ToldRight(t: Tree, call: Call, negated: bool) {
    && call.param < |t| && call.tlvs != []
    && ExtractCmdCode(call.tlvs) == t[call.param].cmdCode
    && (call.mode == CONFIG_DISABLE <==> negated)
    && (call.mode == OPERATIONAL <==> Branch(t, call.param) != CONFIG)
  }

  /** And it sees the leaves of its own path, in order, and nothing else. */
  ghost predicate ViewOk(t: Tree, values: Values, call: Call, negated: bool) {
    ToldRight(t, call, negated) && LoopTlvs(call.tlvs) == PathTlvs(t, values, call.param)
  }

  /** The commands that reach an application handler. */
  ghost predicate ReachesHandler(t: Tree, w: Walked)
    requires w.param < |t| && w.parent < |t|
  {
    && w.status == COMPLETE && t[w.param].hasCallback
    && w.param !in {SUBOPTIONS, EXPANSION, CONFIG}
    && (w.param == MODE ==> w.parent !in {ROOT, CONFIG} && t[w.parent].hasCallback)
  }

  /** The call such a command makes: the buffer as the command found it, its leaves, and its code. */
  ghost function OwnCall(t: Tree, st: State, w: Walked): Call
    requires Placed(t, w)
  {
    var n := EndOf(w);
    Call(n, st.tlvs + LeafTlvs(t, w.leaves) + [CodeTlv(t[n].cmdCode)], ModeOf(t, n, w.negated))
  }

  ghost predicate Shown(before: seq<Call>, own: Call, reaches: bool, alone: bool, after: seq<Call>) {
    if reaches then before + [own] <= after && (alone ==> after == before + [own]) else after == before
  }

  /** A command that reaches a handler makes its own call first, and no other unless the handler feeds lines
      back; one that reaches none makes none. */
  ghost predicate HandlerShown(t: Tree, st: State, w: Walked, line: Line, after: State)
    requires Placed(t, w)
  {
    Shown(st.calls, OwnCall(t, st, w), ReachesHandler(t, w), Fed(line, t[EndOf(w)].rerun) == 0, after.calls)
  }

  lemma InvokeShows(env: Env, st: State, param: Id, negated: bool, line: Line)
    requires EnvOk(env) && InScope(line) && !st.halted && OnTree(env.tree, st.cursor) && param < |env.tree|
    ensures Shown(st.calls, Call(param, st.tlvs, ModeOf(env.tree, param, negated)), true,
                  Fed(line, env.tree[param].rerun) == 0, Invoke(env, st, param, negated, line).calls)
  {
    var called, how := Called(env.tree, st, param, negated), env.tree[param].rerun;
    assert Follows(env.tree, called, FeedBack(env, called, line, how, Fed(line, how)));
  }

  lemma DispatchShows(env: Env, st: State, w: Walked, line: Line)
    requires EnvOk(env) && InScope(line) && !st.halted && OnTree(env.tree, st.cursor)
    requires Placed(env.tree, w) && w.status == COMPLETE && env.tree[w.param].hasCallback
    requires Branch(env.tree, EndOf(w)) != REPEAT
    ensures var n := EndOf(w);
            Shown(st.calls, Call(n, st.tlvs + [CodeTlv(env.tree[n].cmdCode)], ModeOf(env.tree, n, w.negated)),
                  ReachesHandler(env.tree, w), Fed(line, env.tree[n].rerun) == 0,
                  Dispatch(env, st, w, line).calls)
  {
    var t := env.tree;
    if w.param == MODE {
      if w.parent !in {ROOT, CONFIG} && t[w.parent].hasCallback {
        InvokeShows(env, Collect(Mark(st), CodeTlv(t[w.parent].cmdCode)).(cursor := w.parent), w.parent, w.negated,
                    line);
      }
      assert Dispatch(env, st, w, line) == EnterMode(env, st, w.parent, w.negated, line);
    } else if w.param >= CONFIG {
      if w.param != CONFIG {
        InvokeShows(env, Collect(st, CodeTlv(t[w.param].cmdCode)), w.param, w.negated, line);
      }
      assert Dispatch(env, st, w, line) == RunCommand(env, st, w.param, w.negated, line);
    }
  }

  /** One command, wherever it starts. */
  lemma BuildShows(env: Env, st: State, tokens: seq<Token>, line: Line)
    requires EnvOk(env) && InScope(line) && !st.halted && Resting(env.tree, st.cursor) && Walkable(st.cursor, tokens)
    ensures HandlerShown(env.tree, st, WalkFrom(env, st.cursor, tokens), line, Build(env, st, tokens, line).0)
  {
    var w := WalkFrom(env, st.cursor, tokens);
    if w.status == COMPLETE && env.tree[w.param].hasCallback {
      EndBranch(env, st.cursor, tokens);
      DispatchShows(env, Collected(env.tree, st, w.leaves), w, line);
    }
  }

  /** The call is proper exactly when the command found its path's TLVs in the buffer. */
  lemma OwnView(env: Env, st: State, tokens: seq<Token>)
    requires EnvOk(env) && Sane(env, st) && !st.halted && Walkable(st.cursor, tokens)
    requires ReachesHandler(env.tree, WalkFrom(env, st.cursor, tokens))
    ensures var w := WalkFrom(env, st.cursor, tokens);
            var call := OwnCall(env.tree, st, w);
            && ToldRight(env.tree, call, w.negated)
            && (ViewOk(env.tree, Store(st.values, w.leaves), call, w.negated) <==> st.tlvs == Path(env, st))
  {
    var t := env.tree;
    var w := WalkFrom(env, st.cursor, tokens);
    var call := OwnCall(t, st, w);
    EndBranch(env, st.cursor, tokens);
    WalkCollectsPath(env, st.values, st.cursor, st.cursor, tokens);
    AtoiOfDecimal(t[EndOf(w)].cmdCode);
    assert LoopTlvs(call.tlvs) == st.tlvs + LeafTlvs(t, w.leaves);
  }

  /** An ordinary command line, typed or fed back, shows its handler its own path, its own code and its own
      `no`; the path's TLVs have others in front exactly when the line was started on a buffer that is off. */
  lemma HandlerViewOfLine(env: Env, st: State, line: Line)
    requires EnvOk(env) && Sane(env, st) && !st.halted && InScope(line)
    requires Classify(st.cursor, line.tokens) == Ordinary
    ensures var w := WalkFrom(env, st.cursor, line.tokens);
            && HandlerShown(env.tree, st, w, line, Parse(env, st, line).0)
            && (ReachesHandler(env.tree, w) ==>
                  && ToldRight(env.tree, OwnCall(env.tree, st, w), w.negated)
                  && (ViewOk(env.tree, Store(st.values, w.leaves), OwnCall(env.tree, st, w), w.negated)
                      <==> st.tlvs == Path(env, st)))
  {
    BuildShows(env, st, line.tokens, line);
    OrdinaryLine(env, st, line);
    if ReachesHandler(env.tree, WalkFrom(env, st.cursor, line.tokens)) {
      OwnView(env, st, line.tokens);
    }
  }

  /** Through `do` the buffer is always empty at the start, so that the view is always proper. */
  lemma HandlerViewOfDo(env: Env, st: State, line: Line)
    requires EnvOk(env) && Sane(env, st) && !st.halted && InTree(env.tree, st.cursor) && InScope(line)
    requires Classify(st.cursor, line.tokens) == DoCommand && Branch(env.tree, st.cursor) == CONFIG
    ensures var w := WalkFrom(env, DO_HOOK, line.tokens[1..]);
            && HandlerShown(env.tree, AtHook(st), w, line, Parse(env, st, line).0)
            && (ReachesHandler(env.tree, w) ==>
                  ViewOk(env.tree, Store(st.values, w.leaves), OwnCall(env.tree, AtHook(st), w), w.negated))
  {
    var tokens := line.tokens[1..];
    BuildShows(env, AtHook(st), tokens, line);
    DoLine(env, st, line);
    assert RunDo(env, st, tokens, line).0.calls == Build(env, AtHook(st), tokens, line).0.calls;
    if ReachesHandler(env.tree, WalkFrom(env, DO_HOOK, tokens)) {
      OwnView(env, AtHook(st), tokens);
    }
  }
}
