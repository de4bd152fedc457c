/**
 * The response arbitration engine: answer validation, the context-aware
 * QA resolver, the score-based chat resolver and the response composer
 * that ties them to the context store.
 */
module Response {
  import opened Wrappers
  import opened ContextStore
  import opened Downstream

  /** The two domains; each names the context field that holds its active entity. */
  datatype Domain = Idiom | Poem

  function Field(d: Domain): string
  {
    match d
    case Idiom => "idiom"
    case Poem => "poem"
  }

  function Other(d: Domain): Domain
  {
    match d
    case Idiom => Poem
    case Poem => Idiom
  }

  /** Replies carry at most this many characters of the answer text. */
  const MaxAnswerLength: nat := 128

  /** The fixed reply when neither QA nor Chat answers. */
  const Apology: string := "暂时回答不了您的问题。"

  const QaKind: string := "QA"
  const ChatKind: string := "Chat"

  // ---------------------------------------------------------------------
  // Answer validation

  /** `to_valid_text`: a downstream field is usable text only when it is a non-empty string. */
  function ToValidText(x: Raw): (r: Option<string>)
    ensures r.Some? <==> x.Str? && |x.s| > 0
    ensures r.Some? ==> r.value == x.s
  {
    match x
    case Str(s) => if |s| > 0 then Some(s) else None
    case NonStr => None
  }

  /** A Python value that is either a string or None, seen again as a raw field. */
  function AsRaw(o: Option<string>): Raw
  {
    match o
    case Some(s) => Str(s)
    case None => NonStr
  }

  /** Validating an already validated value changes nothing. */
  lemma ToValidTextIdempotent(x: Raw)
    ensures ToValidText(AsRaw(ToValidText(x))) == ToValidText(x)
  {
  }

  // ---------------------------------------------------------------------
  // QA resolver

  /**
   * The triple `(text, tag, key)` a resolver hands back: `NoAnswer` is
   * `(None, None, None)`; `Answer` carries the tag of the service that
   * replied, even when its text did not validate.
   */
  datatype Answer = NoAnswer | Answer(text: Option<string>, domain: Domain, key: Option<string>)
  {
    predicate HasText()
    {
      Answer? && text.Some?
    }
  }

  /**
   * `a` is what a QA service's `reply` means in domain `d`: no answer for a
   * failed call; otherwise an answer tagged `d` whose text and key are the
   * reply's fields when those are non-empty strings, and absent otherwise.
   */
  predicate ReflectsQaReply(a: Answer, reply: QaReply, d: Domain)
  {
    && (a == NoAnswer <==> reply.QaFailed?)
    && (a.Answer? ==> a.domain == d)
    && (a.HasText() <==> reply.QaOk? && reply.answer.Str? && |reply.answer.s| > 0)
    && (a.HasText() ==> a.text.value == reply.answer.s)
    && (a.Answer? ==> (a.key.Some? <==> reply.key.Str? && |reply.key.s| > 0))
    && (a.Answer? && a.key.Some? ==> reply.key == Str(a.key.value))
  }

  /** The common shape of `_get_idiom_qa` and `_get_poetry_qa` once the reply is in. */
  function QaFromReply(reply: QaReply, d: Domain): (a: Answer)
    ensures ReflectsQaReply(a, reply, d)
  {
    match reply
    case QaFailed => NoAnswer
    case QaOk(answer, key) => Answer(ToValidText(answer), d, ToValidText(key))
  }

  /** `_get_idiom_qa`: IdiomQA, given the active idiom as its hint. */
  function IdiomQa(gw: Gateway, q: string, uid: string, ctx: Record): (a: Answer)
    ensures ReflectsQaReply(a, gw.idiomQa(q, uid, Lookup(ctx, "idiom")), Idiom)
  {
    QaFromReply(gw.idiomQa(q, uid, Lookup(ctx, "idiom")), Idiom)
  }

  /** `_get_poetry_qa`: PoetryQA, given the active poem as its hint. */
  function PoetryQa(gw: Gateway, q: string, uid: string, ctx: Record): (a: Answer)
    ensures ReflectsQaReply(a, gw.poetryQa(q, uid, Lookup(ctx, "poem")), Poem)
  {
    QaFromReply(gw.poetryQa(q, uid, Lookup(ctx, "poem")), Poem)
  }

  /** The QA candidate of one domain. */
  function QaCandidate(gw: Gateway, d: Domain, q: string, uid: string, ctx: Record): Answer
  {
    match d
    case Idiom => IdiomQa(gw, q, uid, ctx)
    case Poem => PoetryQa(gw, q, uid, ctx)
  }

  /** A QA candidate reads the context only through its own domain's field, the hint it passes on. */
  lemma QaHintOnly(gw: Gateway, d: Domain, q: string, uid: string, ctx: Record, ctx': Record)
    requires Lookup(ctx, Field(d)) == Lookup(ctx', Field(d))
    ensures QaCandidate(gw, d, q, uid, ctx) == QaCandidate(gw, d, q, uid, ctx')
  {
  }

  /** The order in which the QA services are tried: idiom first exactly when an idiom is active. */
  function QaOrder(ctx: Record): (order: seq<Domain>)
    ensures |order| == 2 && order[0] != order[1]
    ensures order[0] == Idiom <==> "idiom" in ctx
  {
    var callSeq := [Idiom, Poem];
    if Lookup(ctx, "idiom") == None then [callSeq[1], callSeq[0]] else callSeq
  }

  function QaCandidates(gw: Gateway, order: seq<Domain>, q: string, uid: string, ctx: Record): seq<Answer>
  {
    seq(|order|, i requires 0 <= i < |order| => QaCandidate(gw, order[i], q, uid, ctx))
  }

  /** The first candidate that has text, or `NoAnswer`. */
  function FirstWithText(cands: seq<Answer>): Answer
  {
    if |cands| == 0 then NoAnswer
    else if cands[0].HasText() then cands[0]
    else FirstWithText(cands[1..])
  }

  /** `FirstWithText` picks the earliest candidate with text, and fails only when none has text. */
  lemma {:induction false} FirstWithTextSpec(cands: seq<Answer>)
    ensures var a := FirstWithText(cands);
            a.HasText() ==>
              exists i :: 0 <= i < |cands| && cands[i] == a && forall j :: 0 <= j < i ==> !cands[j].HasText()
    ensures var a := FirstWithText(cands);
            !a.HasText() ==> a == NoAnswer && forall j :: 0 <= j < |cands| ==> !cands[j].HasText()
    decreases |cands|
  {
    if |cands| > 0 && !cands[0].HasText() {
      var rest := cands[1..];
      FirstWithTextSpec(rest);
      if FirstWithText(rest).HasText() {
        var i :| 0 <= i < |rest| && rest[i] == FirstWithText(rest) && forall j :: 0 <= j < i ==> !rest[j].HasText();
        assert cands[i + 1] == rest[i];
        assert forall j :: 0 <= j < i + 1 ==> !cands[j].HasText() by {
          forall j | 0 <= j < i + 1 ensures !cands[j].HasText() {
            if j > 0 { assert cands[j] == rest[j - 1]; }
          }
        }
      } else {
        assert forall j :: 0 <= j < |cands| ==> !cands[j].HasText() by {
          forall j | 0 <= j < |cands| ensures !cands[j].HasText() {
            if j > 0 { assert cands[j] == rest[j - 1]; }
          }
        }
      }
    }
  }

  /** `_get_qa_answer`, as a value: the first usable answer in the context-chosen order. */
  function QaResolve(gw: Gateway, q: string, uid: string, ctx: Record): (a: Answer)
    ensures a == NoAnswer || a.HasText()
    ensures a.HasText() ==> a == QaCandidate(gw, a.domain, q, uid, ctx)
  {
    var cands := QaCandidates(gw, QaOrder(ctx), q, uid, ctx);
    FirstWithTextSpec(cands);
    FirstWithText(cands)
  }

  /** `_get_qa_answer`: read the context, then try each QA service in order, stopping at the first text. */
  method QaAnswer(store: Store, gw: Gateway, q: string, uid: string) returns (a: Answer)
    ensures a == QaResolve(gw, q, uid, RecordOf(store.records, uid))
  {
    var ctx := store.Get(uid);
    var callSeq := [Idiom, Poem];
    if Lookup(ctx, "idiom") == None {
      callSeq := [callSeq[1], callSeq[0]];
    }
    ghost var cands := QaCandidates(gw, callSeq, q, uid, ctx);
    var i := 0;
    while i < |callSeq|
      invariant 0 <= i <= |callSeq|
      invariant FirstWithText(cands) == FirstWithText(cands[i..])
    {
      var res := QaCandidate(gw, callSeq[i], q, uid, ctx);
      assert cands[i..][0] == res;
      if res.HasText() {
        return res;
      }
      assert cands[i..][1..] == cands[i + 1..];
      i := i + 1;
    }
    a := NoAnswer;
  }

  /**
   * The QA ordering: the context-preferred service answers whenever it has
   * text; the other one is used only when the first gives no text; with
   * neither there is no answer.
   */
  lemma QaResolvePriority(gw: Gateway, q: string, uid: string, ctx: Record)
    ensures var first := if "idiom" in ctx then Idiom else Poem;
            var a1 := QaCandidate(gw, first, q, uid, ctx);
            var a2 := QaCandidate(gw, Other(first), q, uid, ctx);
            QaResolve(gw, q, uid, ctx) == (if a1.HasText() then a1 else if a2.HasText() then a2 else NoAnswer)
  {
    var order := QaOrder(ctx);
    var cands := QaCandidates(gw, order, q, uid, ctx);
    assert order[1] == Other(order[0]);
    assert cands[1..][1..] == [];
    assert FirstWithText(cands) == if cands[0].HasText() then cands[0] else FirstWithText(cands[1..]);
    assert FirstWithText(cands[1..]) == if cands[1].HasText() then cands[1] else FirstWithText([]);
  }

  /**
   * A QA answer is exactly what the service named by its tag replied, with
   * non-empty text; no text at all means neither service had any.
   */
  lemma QaResolveTagged(gw: Gateway, q: string, uid: string, ctx: Record)
    ensures var a := QaResolve(gw, q, uid, ctx);
            a.HasText() ==> |a.text.value| > 0 && a == QaCandidate(gw, a.domain, q, uid, ctx)
    ensures var a := QaResolve(gw, q, uid, ctx);
            !a.HasText() <==>
              a == NoAnswer && !IdiomQa(gw, q, uid, ctx).HasText() && !PoetryQa(gw, q, uid, ctx).HasText()
  {
    QaResolvePriority(gw, q, uid, ctx);
  }

  /**
   * Once the preferred service has text, the other service's reply does not
   * matter: replacing it by any other reply function leaves the answer as it is.
   */
  lemma QaFirstAnswerShadows(gw: Gateway, q: string, uid: string, ctx: Record,
                             otherQa: (string, string, Option<string>) -> QaReply)
    ensures "idiom" in ctx && IdiomQa(gw, q, uid, ctx).HasText() ==>
              QaResolve(gw.(poetryQa := otherQa), q, uid, ctx) == QaResolve(gw, q, uid, ctx)
    ensures "idiom" !in ctx && PoetryQa(gw, q, uid, ctx).HasText() ==>
              QaResolve(gw.(idiomQa := otherQa), q, uid, ctx) == QaResolve(gw, q, uid, ctx)
  {
    QaResolvePriority(gw, q, uid, ctx);
    QaResolvePriority(gw.(poetryQa := otherQa), q, uid, ctx);
    QaResolvePriority(gw.(idiomQa := otherQa), q, uid, ctx);
  }

  // ---------------------------------------------------------------------
  // Chat resolver

  /** The `(text, score, key)` triple of one chat service; `NoChat` is `(None, None, None)`. */
  datatype ChatCandidate = NoChat | ChatCandidate(text: Option<string>, score: real, key: Option<string>)
  {
    /** Python truthiness of the text: present and non-empty. */
    predicate Truthy()
    {
      ChatCandidate? && text.Some? && |text.value| > 0
    }
  }

  /** `_get_poetry_chat`: the top candidate, with its `poem` field validated as the key. */
  function PoetryChat(gw: Gateway, q: string, uid: string): (c: ChatCandidate)
    ensures c == NoChat <==> gw.poetryChat(q, uid).PoetryChatFailed?
    ensures c.ChatCandidate? ==> c.text == gw.poetryChat(q, uid).text && c.score == gw.poetryChat(q, uid).score
    ensures c.ChatCandidate? ==> (c.key.Some? <==> gw.poetryChat(q, uid).key.Str? && |gw.poetryChat(q, uid).key.s| > 0)
    ensures c.ChatCandidate? && c.key.Some? ==> |c.key.value| > 0 && gw.poetryChat(q, uid).key == Str(c.key.value)
  {
    match gw.poetryChat(q, uid)
    case PoetryChatFailed => NoChat
    case PoetryChatOk(text, score, key) => ChatCandidate(text, score, ToValidText(key))
  }

  /** `_get_idiom_in_text`: IdiomCheck on the chat text; a failed check only loses the key. */
  function IdiomInText(gw: Gateway, text: Option<string>, uid: string): (key: Option<string>)
    ensures gw.idiomCheck(text, uid).CheckFailed? ==> key == None
  {
    match gw.idiomCheck(text, uid)
    case CheckFailed => None
    case CheckOk(idiom) => idiom
  }

  /** `_get_idiom_chat`: the top-ranked text; its key entity is what IdiomCheck finds in that text. */
  function IdiomChat(gw: Gateway, q: string, uid: string): (c: ChatCandidate)
    ensures c == NoChat <==> gw.idiomChat(q, uid).IdiomChatFailed?
    ensures c.ChatCandidate? ==>
              c.text == gw.idiomChat(q, uid).text && c.score == gw.idiomChat(q, uid).score &&
              c.key == IdiomInText(gw, c.text, uid)
  {
    match gw.idiomChat(q, uid)
    case IdiomChatFailed => NoChat
    case IdiomChatOk(text, score) => ChatCandidate(text, score, IdiomInText(gw, text, uid))
  }

  /**
   * The chat decision: among the candidates with text, the one with the
   * higher normalized score, idiom winning ties; a lone candidate with text
   * wins; with none there is no answer.
   */
  function ChooseChat(poetry: ChatCandidate, idiom: ChatCandidate): (a: Answer)
    ensures a.HasText() <==> poetry.Truthy() || idiom.Truthy()
    ensures !a.HasText() ==> a == NoAnswer
    ensures a.HasText() && a.domain == Idiom ==>
              idiom.Truthy() && a == Answer(idiom.text, Idiom, idiom.key) &&
              (poetry.Truthy() ==> idiom.score >= poetry.score)
    ensures a.HasText() && a.domain == Poem ==>
              poetry.Truthy() && a == Answer(poetry.text, Poem, poetry.key) &&
              (idiom.Truthy() ==> poetry.score > idiom.score)
  {
    if poetry.Truthy() && idiom.Truthy() then
      (if idiom.score >= poetry.score then Answer(idiom.text, Idiom, idiom.key)
       else Answer(poetry.text, Poem, poetry.key))
    else if poetry.Truthy() then Answer(poetry.text, Poem, poetry.key)
    else if idiom.Truthy() then Answer(idiom.text, Idiom, idiom.key)
    else NoAnswer
  }

  /** The chat candidate of one domain. */
  function ChatFor(gw: Gateway, d: Domain, q: string, uid: string): ChatCandidate
  {
    match d
    case Idiom => IdiomChat(gw, q, uid)
    case Poem => PoetryChat(gw, q, uid)
  }

  /** `_get_chat_answer`: ask both chat services, then decide. */
  function ChatResolve(gw: Gateway, q: string, uid: string): (a: Answer)
    ensures a.HasText() <==> PoetryChat(gw, q, uid).Truthy() || IdiomChat(gw, q, uid).Truthy()
    ensures !a.HasText() ==> a == NoAnswer
    ensures var poetry := PoetryChat(gw, q, uid);
            var idiom := IdiomChat(gw, q, uid);
            a.HasText() && a.domain == Poem ==>
              poetry.Truthy() && a.text == poetry.text && a.key == poetry.key &&
              (idiom.Truthy() ==> poetry.score > idiom.score)
    ensures var poetry := PoetryChat(gw, q, uid);
            var idiom := IdiomChat(gw, q, uid);
            a.HasText() && a.domain == Idiom ==>
              idiom.Truthy() && a.text == idiom.text && a.key == IdiomInText(gw, idiom.text, uid) &&
              (poetry.Truthy() ==> idiom.score >= poetry.score)
  {
    ChooseChat(PoetryChat(gw, q, uid), IdiomChat(gw, q, uid))
  }

  /** With both chat texts present, idiom is chosen exactly when its score is at least poetry's. */
  lemma ChatChoiceByScore(poetry: ChatCandidate, idiom: ChatCandidate)
    requires poetry.Truthy() && idiom.Truthy()
    ensures ChooseChat(poetry, idiom).domain == Idiom <==> idiom.score >= poetry.score
    ensures ChooseChat(poetry, idiom).domain == Poem <==> poetry.score > idiom.score
  {
  }

  // ---------------------------------------------------------------------
  // Response composer

  /** `text[:128]`. */
  function Truncate(text: string): (r: string)
    ensures r <= text
    ensures |r| == if |text| <= MaxAnswerLength then |text| else MaxAnswerLength
  {
    if |text| <= MaxAnswerLength then text else text[..MaxAnswerLength]
  }

  /** The reply prefix `[<field><kind>]`, e.g. `[poemChat]`. */
  function Tag(d: Domain, kind: string): string
  {
    "[" + Field(d) + kind + "]"
  }

  /** A tagged reply: the prefix, then at most 128 leading characters of the answer. */
  function TaggedReply(d: Domain, kind: string, text: string): (r: string)
    ensures |Tag(d, kind)| <= |r| <= |Tag(d, kind)| + MaxAnswerLength
    ensures r[..|Tag(d, kind)|] == Tag(d, kind)
    ensures r[|Tag(d, kind)|..] <= text
    ensures |r| - |Tag(d, kind)| == if |text| <= MaxAnswerLength then |text| else MaxAnswerLength
  {
    Tag(d, kind) + Truncate(text)
  }

  /** Delete `poem`, then `idiom`. */
  function ClearDomains(recs: Records, uid: string): (r: Records)
    ensures Lookup(RecordOf(r, uid), "poem") == None && Lookup(RecordOf(r, uid), "idiom") == None
    ensures forall f :: f != "poem" && f != "idiom" ==>
              Lookup(RecordOf(r, uid), f) == Lookup(RecordOf(recs, uid), f)
    ensures forall u :: u != uid ==> RecordOf(r, u) == RecordOf(recs, u)
  {
    AfterDelete(AfterDelete(recs, uid, "poem"), uid, "idiom")
  }

  /**
   * Clear both domain fields, then set the winning one to the key entity:
   * afterwards the other domain's field is absent and no stale value remains.
   */
  function SwitchDomain(recs: Records, uid: string, d: Domain, key: Option<string>): (r: Records)
    ensures Lookup(RecordOf(r, uid), Field(Other(d))) == None
    ensures Lookup(RecordOf(r, uid), Field(d)) == if Persistable(key) then key else None
    ensures forall f :: f != "poem" && f != "idiom" ==>
              Lookup(RecordOf(r, uid), f) == Lookup(RecordOf(recs, uid), f)
    ensures forall u :: u != uid ==> RecordOf(r, u) == RecordOf(recs, u)
  {
    AfterSet(ClearDomains(recs, uid), uid, Field(d), key)
  }

  /** The reply of one request and the store's records after it. */
  datatype Outcome = Outcome(reply: string, records: Records)

  /** `responding`, as a value: QA first, then Chat, then the apology. */
  function Responding(recs: Records, gw: Gateway, q: string, uid: string): (r: Outcome)
    ensures forall f :: f != "poem" && f != "idiom" ==>
              Lookup(RecordOf(r.records, uid), f) == Lookup(RecordOf(recs, uid), f)
    ensures forall u :: u != uid ==> RecordOf(r.records, u) == RecordOf(recs, u)
    ensures Lookup(RecordOf(r.records, uid), "poem") == None || Lookup(RecordOf(r.records, uid), "idiom") == None
  {
    var qa := QaResolve(gw, q, uid, RecordOf(recs, uid));
    if qa.HasText() then
      Outcome(TaggedReply(qa.domain, QaKind, qa.text.value), SwitchDomain(recs, uid, qa.domain, qa.key))
    else
      var chat := ChatResolve(gw, q, uid);
      if chat.HasText() then
        Outcome(TaggedReply(chat.domain, ChatKind, chat.text.value), SwitchDomain(recs, uid, chat.domain, chat.key))
      else
        Outcome(Apology, ClearDomains(recs, uid))
  }

  /** `responding`: the same policy, with the store updated one call at a time. */
  method Respond(store: Store, gw: Gateway, q: string, uid: string) returns (reply: string)
    modifies store
    ensures Outcome(reply, store.records) == Responding(old(store.records), gw, q, uid)
  {
    var qa := QaAnswer(store, gw, q, uid);
    if qa.HasText() {
      store.Delete(uid, "poem");
      store.Delete(uid, "idiom");
      store.Set(uid, Field(qa.domain), qa.key);
      return Tag(qa.domain, QaKind) + Truncate(qa.text.value);
    }
    var chat := ChatResolve(gw, q, uid);
    if chat.HasText() {
      store.Delete(uid, "poem");
      store.Delete(uid, "idiom");
      store.Set(uid, Field(chat.domain), chat.key);
      return Tag(chat.domain, ChatKind) + Truncate(chat.text.value);
    }
    store.Delete(uid, "poem");
    store.Delete(uid, "idiom");
    reply := Apology;
  }

  /** Chat is consulted only when QA has no text: with a QA answer, the chat services do not matter. */
  lemma RespondingQaPrecedence(recs: Records, gw: Gateway, q: string, uid: string,
                               poetryChat: (string, string) -> PoetryChatReply,
                               idiomChat: (string, string) -> IdiomChatReply,
                               idiomCheck: (Option<string>, string) -> CheckReply)
    requires QaResolve(gw, q, uid, RecordOf(recs, uid)).HasText()
    ensures var gw' := gw.(poetryChat := poetryChat, idiomChat := idiomChat, idiomCheck := idiomCheck);
            Responding(recs, gw', q, uid) == Responding(recs, gw, q, uid)
  {
    var gw' := gw.(poetryChat := poetryChat, idiomChat := idiomChat, idiomCheck := idiomCheck);
    var ctx := RecordOf(recs, uid);
    assert QaCandidate(gw', Idiom, q, uid, ctx) == QaCandidate(gw, Idiom, q, uid, ctx);
    assert QaCandidate(gw', Poem, q, uid, ctx) == QaCandidate(gw, Poem, q, uid, ctx);
    QaResolvePriority(gw, q, uid, ctx);
    QaResolvePriority(gw', q, uid, ctx);
  }

  /**
   * The reply: the apology exactly when neither resolver answers; otherwise
   * the `[<field>QA]` or `[<field>Chat]` prefix of the winner followed by at
   * most 128 leading characters of its answer.
   */
  lemma RespondingReply(recs: Records, gw: Gateway, q: string, uid: string)
    ensures var r := Responding(recs, gw, q, uid);
            var qa := QaResolve(gw, q, uid, RecordOf(recs, uid));
            var chat := ChatResolve(gw, q, uid);
            && (r.reply == Apology <==> !qa.HasText() && !chat.HasText())
            && (qa.HasText() ==>
                  var p := Tag(qa.domain, QaKind);
                  r.reply[..|p|] == p && r.reply[|p|..] <= qa.text.value && |r.reply| <= |p| + MaxAnswerLength &&
                  |r.reply| - |p| == (if |qa.text.value| <= MaxAnswerLength then |qa.text.value| else MaxAnswerLength))
            && (!qa.HasText() && chat.HasText() ==>
                  var p := Tag(chat.domain, ChatKind);
                  r.reply[..|p|] == p && r.reply[|p|..] <= chat.text.value && |r.reply| <= |p| + MaxAnswerLength &&
                  |r.reply| - |p| == (if |chat.text.value| <= MaxAnswerLength then |chat.text.value| else MaxAnswerLength))
            && |r.reply| <= |"[idiomChat]"| + MaxAnswerLength
  {
    var r := Responding(recs, gw, q, uid);
    var qa := QaResolve(gw, q, uid, RecordOf(recs, uid));
    var chat := ChatResolve(gw, q, uid);
    if qa.HasText() {
      var p := Tag(qa.domain, QaKind);
      assert r.reply[0] == r.reply[..|p|][0] == '[';
    } else if chat.HasText() {
      var p := Tag(chat.domain, ChatKind);
      assert r.reply[0] == r.reply[..|p|][0] == '[';
    }
  }

  /**
   * The context after a request: at most one of `idiom` and `poem` is set,
   * and only to the winner's key entity; the losing domain's field is gone;
   * every other field (such as `last_meta_op`) and every other user is untouched.
   */
  lemma RespondingContext(recs: Records, gw: Gateway, q: string, uid: string)
    ensures var after := RecordOf(Responding(recs, gw, q, uid).records, uid);
            var qa := QaResolve(gw, q, uid, RecordOf(recs, uid));
            var chat := ChatResolve(gw, q, uid);
            var winner := if qa.HasText() then qa else chat;
            && (Lookup(after, "poem") == None || Lookup(after, "idiom") == None)
            && (winner.HasText() ==>
                  Lookup(after, Field(winner.domain)) == (if Persistable(winner.key) then winner.key else None) &&
                  Lookup(after, Field(Other(winner.domain))) == None)
            && (!winner.HasText() ==> Lookup(after, "poem") == None && Lookup(after, "idiom") == None)
            && (forall f :: f != "poem" && f != "idiom" ==> Lookup(after, f) == Lookup(RecordOf(recs, uid), f))
    ensures var r := Responding(recs, gw, q, uid);
            forall u :: u != uid ==> RecordOf(r.records, u) == RecordOf(recs, u)
  {
  }

  /**
   * Total failure: the apology, and the user's record is the old one with
   * just `poem` and `idiom` removed.
   */
  lemma RespondingTotalFailure(recs: Records, gw: Gateway, q: string, uid: string)
    requires !QaResolve(gw, q, uid, RecordOf(recs, uid)).HasText()
    requires !ChatResolve(gw, q, uid).HasText()
    ensures Responding(recs, gw, q, uid).reply == Apology
    ensures RecordOf(Responding(recs, gw, q, uid).records, uid) == RecordOf(recs, uid) - {"poem", "idiom"}
  {
    var after := RecordOf(Responding(recs, gw, q, uid).records, uid);
    var expected := RecordOf(recs, uid) - {"poem", "idiom"};
    forall f ensures Lookup(after, f) == Lookup(expected, f) {
    }
    RecordsAgree(after, expected);
  }
}
