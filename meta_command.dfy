/**
 * The meta-command dispatcher: a query `%cmd[:payload]` addresses one
 * downstream directly, or manages or shows the context; `%%` repeats the
 * user's last command.
 */
module MetaCommand {
  import opened Wrappers
  import opened ContextStore
  import opened Downstream
  import opened Response

  // ---------------------------------------------------------------------
  // `q.split(':')` and `":".join(...)`

  /** Python's `s.split(':')`: the pieces between colons, at least one. */
  function Split(s: string): (parts: seq<string>)
    ensures |parts| >= 1
    decreases |s|
  {
    if |s| == 0 then [""]
    else
      var rest := Split(s[1..]);
      if s[0] == ':' then [""] + rest
      else [[s[0]] + rest[0]] + rest[1..]
  }

  /** Python's `":".join(parts)`. */
  function Join(parts: seq<string>): (r: string)
    ensures |parts| >= 1 ==> parts[0] <= r
    ensures (forall i :: 0 <= i < |parts| ==> ':' !in parts[i]) ==> (':' in r <==> |parts| >= 2)
  {
    if |parts| == 0 then ""
    else if |parts| == 1 then parts[0]
    else parts[0] + ":" + Join(parts[1..])
  }

  /** Joining the pieces of a split gives the string back. */
  lemma {:induction false} JoinSplit(s: string)
    ensures Join(Split(s)) == s
    decreases |s|
  {
    if |s| > 0 {
      var rest := Split(s[1..]);
      JoinSplit(s[1..]);
      if s[0] == ':' {
        assert ([""] + rest)[1..] == rest;
      } else if |rest| == 1 {
        assert Split(s) == [[s[0]] + rest[0]];
      } else {
        var parts := Split(s);
        assert parts[1..] == rest[1..];
        assert Join(rest) == rest[0] + ":" + Join(rest[1..]);
      }
    }
  }

  /** No piece contains a colon; a colon-free string is its own single piece. */
  lemma {:induction false} SplitShape(s: string)
    ensures ':' !in s ==> Split(s) == [s]
    ensures ':' in s ==> |Split(s)| >= 2
    ensures forall i :: 0 <= i < |Split(s)| ==> ':' !in Split(s)[i]
    decreases |s|
  {
    if |s| > 0 {
      SplitShape(s[1..]);
      var rest := Split(s[1..]);
      if s[0] != ':' {
        assert s == [s[0]] + s[1..];
        assert ':' !in [s[0]] + rest[0];
        var parts := Split(s);
        forall i | 0 < i < |parts| ensures ':' !in parts[i] {
          assert parts[i] == rest[i];
        }
      } else {
        var parts := Split(s);
        forall i | 0 < i < |parts| ensures ':' !in parts[i] {
          assert parts[i] == rest[i - 1];
        }
      }
    }
  }

  /** Splitting `h + ":" + p` with a colon-free `h` gives `h`, then the pieces of `p`. */
  lemma {:induction false} SplitAfterHead(h: string, p: string)
    requires ':' !in h
    ensures Split(h + ":" + p) == [h] + Split(p)
    decreases |h|
  {
    var s := h + ":" + p;
    if |h| == 0 {
      assert s[1..] == p;
    } else {
      assert s[1..] == h[1..] + ":" + p;
      SplitAfterHead(h[1..], p);
      assert [s[0]] + h[1..] == h;
    }
  }

  /** The text before the first colon. */
  function CommandHead(q: string): string
  {
    Split(q)[0]
  }

  /** `":".join(parts[1:])`: everything after the first colon, colons included. */
  function Payload(q: string): string
  {
    Join(Split(q)[1..])
  }

  /**
   * The command split: the head has no colon; with a colon in `q`, head,
   * colon and payload rebuild `q`; without one, the head is all of `q` and
   * the payload is empty.
   */
  lemma CommandSplit(q: string)
    ensures ':' !in CommandHead(q)
    ensures ':' in q ==> CommandHead(q) + ":" + Payload(q) == q
    ensures ':' !in q ==> CommandHead(q) == q && Payload(q) == ""
  {
    SplitShape(q);
    JoinSplit(q);
  }

  /** Head and payload of a query built from them. */
  lemma CommandOfParts(h: string, p: string)
    requires ':' !in h
    ensures CommandHead(h + ":" + p) == h && Payload(h + ":" + p) == p
  {
    SplitAfterHead(h, p);
    assert Split(h + ":" + p)[1..] == Split(p);
    JoinSplit(p);
  }

  // ---------------------------------------------------------------------
  // Lower-casing and substring tests

  function LowerChar(c: char): char
  {
    if 'A' <= c <= 'Z' then (c as int + 32) as char else c
  }

  /** `str.lower()`, for the ASCII letters. */
  function Lower(s: string): (r: string)
    ensures |r| == |s|
    ensures forall i :: 0 <= i < |s| ==> r[i] == LowerChar(s[i])
  {
    if |s| == 0 then "" else [LowerChar(s[0])] + Lower(s[1..])
  }

  /** Lower-casing is idempotent. */
  lemma LowerIdempotent(s: string)
    ensures Lower(Lower(s)) == Lower(s)
  {
  }

  predicate StartsWith(s: string, p: string)
  {
    |p| <= |s| && s[..|p|] == p
  }

  /** Python's `sub in s` on strings. */
  predicate Contains(s: string, sub: string)
    decreases |s|
  {
    StartsWith(s, sub) || (|s| > 0 && Contains(s[1..], sub))
  }

  /** `sub` occurs in `s` starting at position `i`. */
  predicate OccursAt(s: string, sub: string, i: int)
  {
    0 <= i <= |s| - |sub| && s[i..i + |sub|] == sub
  }

  /** `Contains` holds exactly when `sub` occurs at some position of `s`. */
  lemma {:induction false} ContainsSpec(s: string, sub: string)
    ensures Contains(s, sub) <==> exists i :: OccursAt(s, sub, i)
    decreases |s|
  {
    if StartsWith(s, sub) {
      assert OccursAt(s, sub, 0);
    } else if |s| > 0 {
      ContainsSpec(s[1..], sub);
      if Contains(s[1..], sub) {
        var i :| OccursAt(s[1..], sub, i);
        assert s[1..][i..i + |sub|] == s[i + 1..i + 1 + |sub|];
        assert OccursAt(s, sub, i + 1);
      }
      if exists i :: OccursAt(s, sub, i) {
        var i :| OccursAt(s, sub, i);
        assert i != 0;
        assert s[1..][i - 1..i - 1 + |sub|] == s[i..i + |sub|];
        assert OccursAt(s[1..], sub, i - 1);
      }
    }
  }

  /** `sub` is contained in anything built around it. */
  lemma ContainedIn(before: string, sub: string, after: string)
    ensures Contains(before + sub + after, sub)
  {
    var s := before + sub + after;
    assert s[|before|..|before| + |sub|] == sub;
    assert OccursAt(s, sub, |before|);
    ContainsSpec(s, sub);
  }

  /** A string lacking one of the characters of `sub` does not contain `sub`. */
  lemma {:induction false} NotContainedWithoutChar(s: string, sub: string, c: char)
    requires c in sub && c !in s
    ensures !Contains(s, sub)
    decreases |s|
  {
    var k :| 0 <= k < |sub| && sub[k] == c;
    if |sub| <= |s| {
      assert s[..|sub|][k] == s[k] != c;
    }
    assert !StartsWith(s, sub);
    if |s| > 0 {
      NotContainedWithoutChar(s[1..], sub, c);
    }
  }

  // ---------------------------------------------------------------------
  // The closed set of commands

  datatype MetaOp = IdiomQaOp | IdiomChatOp | PoemQaOp | PoemChatOp | ResetOp | FlushOp | StatusOp

  function Token(op: MetaOp): string
  {
    match op
    case IdiomQaOp => "%idiomqa"
    case IdiomChatOp => "%idiomchat"
    case PoemQaOp => "%poemqa"
    case PoemChatOp => "%poemchat"
    case ResetOp => "%reset"
    case FlushOp => "%flush"
    case StatusOp => "%status"
  }

  /** `ops.get(op)`: the command a token names, if any. */
  function ParseOp(t: string): (r: Option<MetaOp>)
    ensures r.Some? ==> Token(r.value) == t
  {
    if t == "%idiomqa" then Some(IdiomQaOp)
    else if t == "%idiomchat" then Some(IdiomChatOp)
    else if t == "%poemqa" then Some(PoemQaOp)
    else if t == "%poemchat" then Some(PoemChatOp)
    else if t == "%reset" then Some(ResetOp)
    else if t == "%flush" then Some(FlushOp)
    else if t == "%status" then Some(StatusOp)
    else None
  }

  /** The shorthand for "the last command". */
  const RepeatToken: string := "%%"

  /** The context field that remembers the last command. */
  const LastOpField: string := "last_meta_op"

  /**
   * Every token is recognized as its own command, has no colon and is not
   * the shorthand.
   */
  lemma TokenFacts(op: MetaOp)
    ensures ParseOp(Token(op)) == Some(op)
    ensures ':' !in Token(op)
    ensures Token(op) != RepeatToken
    ensures ParseOp(RepeatToken) == None
  {
  }

  /** `"idiom" in op` / `"poem" in op`: which context field a command's key entity goes to. */
  function DomainOf(token: string): Option<Domain>
  {
    if Contains(token, "idiom") then Some(Idiom)
    else if Contains(token, "poem") then Some(Poem)
    else None
  }

  /** Only the four downstream commands.  */
  predicate IsDownstreamOp(op: MetaOp)
  {
    op.IdiomQaOp? || op.IdiomChatOp? || op.PoemQaOp? || op.PoemChatOp?
  }

  /** The domain each downstream command belongs to. */
  function OpDomain(op: MetaOp): Domain
    requires IsDownstreamOp(op)
  {
    if op.IdiomQaOp? || op.IdiomChatOp? then Idiom else Poem
  }

  lemma IdiomTokensHaveIdiom()
    ensures Contains(Token(IdiomQaOp), "idiom") && Contains(Token(IdiomChatOp), "idiom")
  {
    assert Token(IdiomQaOp) == "%" + "idiom" + "qa";
    ContainedIn("%", "idiom", "qa");
    assert Token(IdiomChatOp) == "%" + "idiom" + "chat";
    ContainedIn("%", "idiom", "chat");
  }

  lemma PoemTokensHavePoemOnly()
    ensures Contains(Token(PoemQaOp), "poem") && !Contains(Token(PoemQaOp), "idiom")
    ensures Contains(Token(PoemChatOp), "poem") && !Contains(Token(PoemChatOp), "idiom")
  {
    assert Token(PoemQaOp) == "%" + "poem" + "qa";
    ContainedIn("%", "poem", "qa");
    NotContainedWithoutChar(Token(PoemQaOp), "idiom", 'd');
    assert Token(PoemChatOp) == "%" + "poem" + "chat";
    ContainedIn("%", "poem", "chat");
    NotContainedWithoutChar(Token(PoemChatOp), "idiom", 'd');
  }

  lemma AdminTokensHaveNeither()
    ensures !Contains(Token(ResetOp), "idiom") && !Contains(Token(ResetOp), "poem")
    ensures !Contains(Token(FlushOp), "idiom") && !Contains(Token(FlushOp), "poem")
    ensures !Contains(Token(StatusOp), "idiom") && !Contains(Token(StatusOp), "poem")
  {
    NotContainedWithoutChar(Token(ResetOp), "idiom", 'i');
    NotContainedWithoutChar(Token(ResetOp), "poem", 'p');
    NotContainedWithoutChar(Token(FlushOp), "idiom", 'i');
    NotContainedWithoutChar(Token(FlushOp), "poem", 'p');
    NotContainedWithoutChar(Token(StatusOp), "idiom", 'i');
    NotContainedWithoutChar(Token(StatusOp), "poem", 'p');
  }

  /** The substring tests send idiom commands to `idiom`, poem commands to `poem`, the rest nowhere. */
  lemma DomainOfToken(op: MetaOp)
    ensures IsDownstreamOp(op) ==> DomainOf(Token(op)) == Some(OpDomain(op))
    ensures !IsDownstreamOp(op) ==> DomainOf(Token(op)) == None
  {
    IdiomTokensHaveIdiom();
    PoemTokensHavePoemOnly();
    AdminTokensHaveNeither();
  }

  // ---------------------------------------------------------------------
  // Dispatch

  /** What a meta command answers: nothing (`None`), a text, or the context snapshot of `%status`. */
  datatype MetaReply = NoReply | Text(s: string) | Snapshot(ctx: Record)

  const UnsupportedReply: string := "[meta]不支持该指令。"
  const ResetReply: string := "[meta]已清除当前状态。"
  const FlushReply: string := "[meta]已清除所有人状态。"

  /** `res[0]` (kept only when truthy) and `res[-1]` of a command's result. */
  datatype OpResult = OpResult(head: MetaReply, last: Option<string>)

  function TextReply(t: Option<string>): (r: MetaReply)
    ensures r.Text? <==> t.Some? && |t.value| > 0
    ensures r.Text? ==> r.s == t.value
    ensures !r.Snapshot?
  {
    if t.Some? && |t.value| > 0 then Text(t.value) else NoReply
  }

  function AnswerResult(a: Answer): OpResult
  {
    match a
    case NoAnswer => OpResult(NoReply, None)
    case Answer(text, _, key) => OpResult(TextReply(text), key)
  }

  function ChatResult(c: ChatCandidate): OpResult
  {
    match c
    case NoChat => OpResult(NoReply, None)
    case ChatCandidate(text, _, key) => OpResult(TextReply(text), key)
  }

  /** A command's result and the records after it, before `last_meta_op` is written. */
  datatype Step = Step(result: OpResult, records: Records)

  /** One command on the records as they were when the request read its context. */
  function RunOp(op: MetaOp, recs: Records, gw: Gateway, payload: string, uid: string): (r: Step)
    ensures op != ResetOp && op != FlushOp ==> r.records == recs
    ensures !IsDownstreamOp(op) ==> r.result.last == None && !r.result.head.NoReply?
    ensures r.result.head.Snapshot? <==> op == StatusOp
    ensures op == StatusOp ==> r.result.head.ctx == RecordOf(recs, uid)
    ensures op == IdiomQaOp || op == PoemQaOp ==>
              var a := QaCandidate(gw, OpDomain(op), payload, uid, RecordOf(recs, uid));
              r.result == OpResult(if a.HasText() then Text(a.text.value) else NoReply, if a.Answer? then a.key else None)
    ensures op == IdiomChatOp || op == PoemChatOp ==>
              var c := ChatFor(gw, OpDomain(op), payload, uid);
              r.result == OpResult(if c.Truthy() then Text(c.text.value) else NoReply, if c.ChatCandidate? then c.key else None)
  {
    var ctx := RecordOf(recs, uid);
    match op
    case IdiomQaOp => Step(AnswerResult(IdiomQa(gw, payload, uid, ctx)), recs)
    case IdiomChatOp => Step(ChatResult(IdiomChat(gw, payload, uid)), recs)
    case PoemQaOp => Step(AnswerResult(PoetryQa(gw, payload, uid, ctx)), recs)
    case PoemChatOp => Step(ChatResult(PoetryChat(gw, payload, uid)), recs)
    case ResetOp => Step(OpResult(Text(ResetReply), None), AfterReset(recs, uid))
    case FlushOp => Step(OpResult(Text(FlushReply), None), AfterFlush())
    case StatusOp => Step(OpResult(Snapshot(ctx), None), recs)
  }

  /** The lower-cased text before the first colon. */
  function CommandToken(q: string): string
  {
    Lower(CommandHead(q))
  }

  /** `%%` stands for the stored last command; any other token for itself. */
  function ResolveToken(token: string, ctx: Record): (r: Option<string>)
    ensures token != RepeatToken ==> r == Some(token)
    ensures token == RepeatToken ==> (r.Some? <==> LastOpField in ctx)
    ensures token == RepeatToken && r.Some? ==> r.value == ctx[LastOpField]
  {
    if token == RepeatToken then Lookup(ctx, LastOpField) else Some(token)
  }

  /** The command a query selects in a given context, if it selects one. */
  function Dispatch(q: string, ctx: Record): Option<MetaOp>
  {
    var resolved := ResolveToken(CommandToken(q), ctx);
    if resolved.Some? then ParseOp(resolved.value) else None
  }

  datatype MetaResponse = MetaResponse(reply: MetaReply, records: Records)

  /** `meta_responding`, as a value. */
  function MetaResponding(recs: Records, gw: Gateway, q: string, uid: string): (r: MetaResponse)
    ensures r.reply.NoReply? ==>
              Dispatch(q, RecordOf(recs, uid)).Some? && IsDownstreamOp(Dispatch(q, RecordOf(recs, uid)).value)
    ensures r.reply.Snapshot? <==> Dispatch(q, RecordOf(recs, uid)) == Some(StatusOp)
    ensures Dispatch(q, RecordOf(recs, uid)).None? ==> r.records == recs
  {
    var ctx := RecordOf(recs, uid);
    var resolved := ResolveToken(CommandToken(q), ctx);
    var op := if resolved.Some? then ParseOp(resolved.value) else None;
    if op.None? then MetaResponse(Text(UnsupportedReply), recs)
    else
      var step := RunOp(op.value, recs, gw, Payload(q), uid);
      var stored := AfterSet(step.records, uid, LastOpField, resolved);
      if step.result.head.NoReply? then MetaResponse(NoReply, stored)
      else
        var key := DomainOf(resolved.value);
        if key.Some? && Persistable(step.result.last) then
          MetaResponse(step.result.head, SwitchDomain(stored, uid, key.value, step.result.last))
        else
          MetaResponse(step.result.head, stored)
  }

  /** `meta_responding`: split, resolve `%%`, dispatch, remember the command, update the context. */
  method MetaRespond(store: Store, gw: Gateway, q: string, uid: string) returns (reply: MetaReply)
    modifies store
    ensures MetaResponse(reply, store.records) == MetaResponding(old(store.records), gw, q, uid)
  {
    var ctx := store.Get(uid);
    var parts := Split(q);
    var op, newQ := Lower(parts[0]), Join(parts[1..]);
    var resolved := Some(op);
    if op == RepeatToken {
      resolved := Lookup(ctx, LastOpField);
    }
    var call := if resolved.Some? then ParseOp(resolved.value) else None;
    if call.None? {
      return Text(UnsupportedReply);
    }
    var res: OpResult;
    match call.value {
      case IdiomQaOp => res := AnswerResult(IdiomQa(gw, newQ, uid, ctx));
      case IdiomChatOp => res := ChatResult(IdiomChat(gw, newQ, uid));
      case PoemQaOp => res := AnswerResult(PoetryQa(gw, newQ, uid, ctx));
      case PoemChatOp => res := ChatResult(PoetryChat(gw, newQ, uid));
      case ResetOp =>
        store.Reset(uid);
        res := OpResult(Text(ResetReply), None);
      case FlushOp =>
        store.Flush();
        res := OpResult(Text(FlushReply), None);
      case StatusOp =>
        var now := store.Get(uid);
        res := OpResult(Snapshot(now), None);
    }
    store.Set(uid, LastOpField, resolved);
    if !res.head.NoReply? {
      var key := DomainOf(resolved.value);
      var val := res.last;
      if key.Some? && val.Some? && |val.value| > 0 {
        store.Delete(uid, "poem");
        store.Delete(uid, "idiom");
        store.Set(uid, Field(key.value), val);
      }
      return res.head;
    }
    reply := NoReply;
  }

  // ---------------------------------------------------------------------
  // Properties of the dispatcher

  /** An unrecognized command, or `%%` with nothing to repeat, is refused and changes nothing. */
  lemma MetaUnsupported(recs: Records, gw: Gateway, q: string, uid: string)
    requires Dispatch(q, RecordOf(recs, uid)).None?
    ensures MetaResponding(recs, gw, q, uid) == MetaResponse(Text(UnsupportedReply), recs)
  {
  }

  /** `%%` is refused when the user has no remembered command. */
  lemma RepeatWithoutHistory(recs: Records, gw: Gateway, q: string, uid: string)
    requires CommandToken(q) == RepeatToken
    requires LastOpField !in RecordOf(recs, uid)
    ensures MetaResponding(recs, gw, q, uid) == MetaResponse(Text(UnsupportedReply), recs)
  {
  }

  /** A recognized command is remembered as the resolved token, never as `%%`. */
  lemma MetaRemembersCommand(recs: Records, gw: Gateway, q: string, uid: string)
    requires Dispatch(q, RecordOf(recs, uid)).Some?
    ensures var op := Dispatch(q, RecordOf(recs, uid)).value;
            var after := RecordOf(MetaResponding(recs, gw, q, uid).records, uid);
            Lookup(after, LastOpField) == Some(Token(op)) && Token(op) != RepeatToken
  {
    var op := Dispatch(q, RecordOf(recs, uid)).value;
    TokenFacts(op);
  }

  /**
   * For a downstream command: the reply is its text when that is non-empty
   * and `None` otherwise; the domain fields change, by clearing both and
   * setting the command's own, exactly when there is a reply and a key
   * entity; no other field but `last_meta_op` and no other user changes.
   */
  lemma MetaDownstreamContext(recs: Records, gw: Gateway, q: string, uid: string)
    requires Dispatch(q, RecordOf(recs, uid)).Some?
    requires IsDownstreamOp(Dispatch(q, RecordOf(recs, uid)).value)
    ensures var op := Dispatch(q, RecordOf(recs, uid)).value;
            var r := MetaResponding(recs, gw, q, uid);
            var before := RecordOf(recs, uid);
            var after := RecordOf(r.records, uid);
            var d := OpDomain(op);
            var isQa := op == IdiomQaOp || op == PoemQaOp;
            var a := QaCandidate(gw, d, Payload(q), uid, before);
            var c := ChatFor(gw, d, Payload(q), uid);
            var replied := if isQa then a.HasText() else c.Truthy();
            var text := if isQa then (if a.HasText() then a.text.value else "") else (if c.Truthy() then c.text.value else "");
            var key := if isQa then (if a.Answer? then a.key else None) else (if c.ChatCandidate? then c.key else None);
            && r.reply == (if replied then Text(text) else NoReply)
            && (replied && Persistable(key) ==>
                  Lookup(after, Field(d)) == key && Lookup(after, Field(Other(d))) == None)
            && (!(replied && Persistable(key)) ==>
                  Lookup(after, "poem") == Lookup(before, "poem") && Lookup(after, "idiom") == Lookup(before, "idiom"))
            && (forall f :: f != LastOpField && f != "poem" && f != "idiom" ==> Lookup(after, f) == Lookup(before, f))
            && (forall u :: u != uid ==> RecordOf(r.records, u) == RecordOf(recs, u))
  {
    var op := Dispatch(q, RecordOf(recs, uid)).value;
    TokenFacts(op);
    DomainOfToken(op);
  }


  /** `%%`, alone or followed by a colon and a payload, is the shorthand token. */
  lemma RepeatSpelling(p: string)
    ensures CommandToken(RepeatToken + ":" + p) == RepeatToken && Payload(RepeatToken + ":" + p) == p
    ensures CommandToken(RepeatToken) == RepeatToken && Payload(RepeatToken) == ""
  {
    CommandOfParts(RepeatToken, p);
    CommandSplit(RepeatToken);
  }

  /**
   * `%%` resolves to the remembered command: it does exactly what a query
   * naming that command, with the same payload, would do.
   */
  lemma RepeatIsRemembered(recs: Records, gw: Gateway, q: string, q': string, uid: string, op: MetaOp)
    requires CommandToken(q) == RepeatToken
    requires CommandToken(q') == Token(op) && Payload(q') == Payload(q)
    requires Lookup(RecordOf(recs, uid), LastOpField) == Some(Token(op))
    ensures MetaResponding(recs, gw, q, uid) == MetaResponding(recs, gw, q', uid)
  {
    TokenFacts(op);
  }

  /** A command followed by `%%` with the same payload runs that command a second time. */
  lemma RepeatAfterCommand(recs: Records, gw: Gateway, q: string, q': string, uid: string, op: MetaOp)
    requires CommandToken(q) == Token(op)
    requires CommandToken(q') == RepeatToken && Payload(q') == Payload(q)
    ensures var first := MetaResponding(recs, gw, q, uid);
            MetaResponding(first.records, gw, q', uid) == MetaResponding(first.records, gw, q, uid)
  {
    TokenFacts(op);
    assert Dispatch(q, RecordOf(recs, uid)) == Some(op);
    MetaRemembersCommand(recs, gw, q, uid);
    RepeatIsRemembered(MetaResponding(recs, gw, q, uid).records, gw, q', q, uid, op);
  }

  /** `%reset` drops the user's record, then remembers itself. */
  lemma ResetOutcome(recs: Records, gw: Gateway, q: string, uid: string)
    requires CommandToken(q) == Token(ResetOp)
    ensures MetaResponding(recs, gw, q, uid) ==
            MetaResponse(Text(ResetReply), AfterSet(AfterReset(recs, uid), uid, LastOpField, Some(Token(ResetOp))))
  {
    TokenFacts(ResetOp);
    DomainOfToken(ResetOp);
  }

  /** `%flush` drops every record, then remembers itself for the caller. */
  lemma FlushOutcome(recs: Records, gw: Gateway, q: string, uid: string)
    requires CommandToken(q) == Token(FlushOp)
    ensures MetaResponding(recs, gw, q, uid) ==
            MetaResponse(Text(FlushReply), AfterSet(AfterFlush(), uid, LastOpField, Some(Token(FlushOp))))
  {
    TokenFacts(FlushOp);
    DomainOfToken(FlushOp);
  }

  /** The only field left by a reset or a flush is the remembered command. */
  lemma OnlyLastOp(recs: Records, uid: string, t: string)
    requires RecordOf(recs, uid) == map[]
    requires |t| > 0
    ensures RecordOf(AfterSet(recs, uid, LastOpField, Some(t)), uid) == map[LastOpField := t]
  {
    var after := RecordOf(AfterSet(recs, uid, LastOpField, Some(t)), uid);
    var expected := map[LastOpField := t];
    forall f ensures Lookup(after, f) == Lookup(expected, f) {
    }
    RecordsAgree(after, expected);
  }

  /**
   * `%reset` drops the user's record and then remembers itself, so a
   * following `%status` shows a context holding only `last_meta_op`.
   */
  lemma ResetThenStatus(recs: Records, gw: Gateway, q: string, q': string, uid: string)
    requires CommandToken(q) == Token(ResetOp)
    requires CommandToken(q') == Token(StatusOp)
    ensures var reset := MetaResponding(recs, gw, q, uid);
            && reset.reply == Text(ResetReply)
            && RecordOf(reset.records, uid) == map[LastOpField := Token(ResetOp)]
            && MetaResponding(reset.records, gw, q', uid).reply == Snapshot(map[LastOpField := Token(ResetOp)])
  {
    ResetOutcome(recs, gw, q, uid);
    OnlyLastOp(AfterReset(recs, uid), uid, Token(ResetOp));
    var reset := MetaResponding(recs, gw, q, uid);
    TokenFacts(StatusOp);
    StatusShowsContext(reset.records, gw, q', uid);
  }

  /** `%flush` empties every other user's record; the caller's holds only `last_meta_op`. */
  lemma FlushClearsEveryone(recs: Records, gw: Gateway, q: string, uid: string)
    requires CommandToken(q) == Token(FlushOp)
    ensures var flush := MetaResponding(recs, gw, q, uid);
            && flush.reply == Text(FlushReply)
            && RecordOf(flush.records, uid) == map[LastOpField := Token(FlushOp)]
            && forall u :: u != uid ==> RecordOf(flush.records, u) == map[]
  {
    FlushOutcome(recs, gw, q, uid);
    OnlyLastOp(AfterFlush(), uid, Token(FlushOp));
  }

  /** `%status` shows the context as it was and changes only `last_meta_op`. */
  lemma StatusShowsContext(recs: Records, gw: Gateway, q: string, uid: string)
    requires Dispatch(q, RecordOf(recs, uid)) == Some(StatusOp)
    ensures var r := MetaResponding(recs, gw, q, uid);
            && r.reply == Snapshot(RecordOf(recs, uid))
            && r.records == AfterSet(recs, uid, LastOpField, Some(Token(StatusOp)))
  {
    DomainOfToken(StatusOp);
  }

  // ---------------------------------------------------------------------
  // The remembered command is always a recognized one

  /** A record whose `last_meta_op`, if any, names a command. */
  predicate LastOpValid(r: Record)
  {
    LastOpField in r ==> ParseOp(r[LastOpField]).Some?
  }

  /** Every stored `last_meta_op` names a command. */
  ghost predicate LastOpsRecognized(recs: Records)
  {
    forall u :: LastOpValid(RecordOf(recs, u))
  }

  /** A command changes other users' records only by emptying them (`%flush`). */
  lemma MetaOtherUsers(recs: Records, gw: Gateway, q: string, uid: string)
    ensures var after := MetaResponding(recs, gw, q, uid).records;
            forall u :: u != uid ==> RecordOf(after, u) == RecordOf(recs, u) || RecordOf(after, u) == map[]
  {
    var ctx := RecordOf(recs, uid);
    var resolved := ResolveToken(CommandToken(q), ctx);
    if Dispatch(q, ctx).Some? {
      var op := Dispatch(q, ctx).value;
      var step := RunOp(op, recs, gw, Payload(q), uid);
      assert forall u :: u != uid ==> RecordOf(step.records, u) == RecordOf(recs, u) || RecordOf(step.records, u) == map[];
      var stored := AfterSet(step.records, uid, LastOpField, resolved);
      assert forall u :: u != uid ==> RecordOf(stored, u) == RecordOf(step.records, u);
    }
  }

  /** The dispatcher only ever stores recognized commands. */
  lemma MetaKeepsLastOpsRecognized(recs: Records, gw: Gateway, q: string, uid: string)
    requires LastOpsRecognized(recs)
    ensures LastOpsRecognized(MetaResponding(recs, gw, q, uid).records)
  {
    var after := MetaResponding(recs, gw, q, uid).records;
    var ctx := RecordOf(recs, uid);
    MetaOtherUsers(recs, gw, q, uid);
    if Dispatch(q, ctx).Some? {
      var op := Dispatch(q, ctx).value;
      MetaRemembersCommand(recs, gw, q, uid);
      TokenFacts(op);
      assert Lookup(RecordOf(after, uid), LastOpField) == Some(Token(op));
      assert LastOpValid(RecordOf(after, uid));
    }
    forall u ensures LastOpValid(RecordOf(after, u)) {
      if u != uid {
        assert LastOpValid(RecordOf(recs, u));
      }
    }
  }

  /** The composer never touches `last_meta_op`. */
  lemma RespondingKeepsLastOpsRecognized(recs: Records, gw: Gateway, q: string, uid: string)
    requires LastOpsRecognized(recs)
    ensures LastOpsRecognized(Responding(recs, gw, q, uid).records)
  {
    RespondingContext(recs, gw, q, uid);
  }

  /** Under that invariant, `%%` is refused exactly when there is no remembered command. */
  lemma RepeatRefusedIffNoHistory(recs: Records, q: string, uid: string)
    requires LastOpsRecognized(recs)
    requires CommandToken(q) == RepeatToken
    ensures Dispatch(q, RecordOf(recs, uid)).None? <==> LastOpField !in RecordOf(recs, uid)
  {
  }
}
