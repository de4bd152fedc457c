# Response arbitration of the dialogue manager

This project models the response engine of the dialogue manager
(`response.py`) and proves properties of it. The engine takes a user's query
and either answers it itself or answers a `%` meta-command. Answering works as
follows:

- it asks the idiom and poetry question-answering (QA) services in an order
  that depends on the user's context;
- when neither QA service has an answer, it asks the idiom and poetry chat
  services and keeps the candidate with the better normalized score;
- it cuts the winning answer text to its first 128 characters and puts a tag
  before it, so the reply is the tag followed by at most 128 characters;
- it records the winner's key entity (an idiom or a poem) as the user's
  conversational context.

The meta-command dispatcher runs one named service or administrative action
directly. It remembers the last command it ran, so that `%%` can repeat it.

Modules:

- `Wrappers`: the `Option` type.
- `ContextStore`: the per-user context store.
  - Each record is a map from field to value.
  - `AfterSet`, `AfterDelete`, `AfterReset` and `AfterFlush` say what each
    store operation does.
  - `Store` is a class whose methods update its `records` field exactly as
    those functions say.
  - Setting an absent or empty value changes nothing.
- `Downstream`: what the five downstream services can reply.
  - `Gateway` bundles the services as functions of their inputs.
  - Any exception a call can raise is one `...Failed` reply.
  - A reply field that may not be a string is a `Raw` value.
- `Response`: the main response path.
  - Text validation (`ToValidText`).
  - The two QA candidates and their priority order (`QaOrder`, `FirstWithText`,
    `QaResolve`, and the loop `QaAnswer`).
  - The two chat candidates and the score decision (`ChooseChat`).
  - Reply tagging and truncation (`TaggedReply`).
  - The context update (`SwitchDomain`, `ClearDomains`).
  - The composer, as a specification function `Responding` and a method
    `Respond` that makes the same store calls in the same order.
- `MetaCommand`: the meta-command path.
  - The colon split and its join (`Split`, `Join`).
  - ASCII lower-casing.
  - The command table (`Token`, `ParseOp`).
  - The substring test that picks a command's domain (`Contains`, `DomainOf`).
  - `%%` resolution (`ResolveToken`).
  - The dispatcher, as `MetaResponding` and the method `MetaRespond`.
  - The invariant that a remembered `last_meta_op` always names a command.

The engine's own decisions are modelled in full, for every reply the services
can give within the value shapes listed under "## Left out" (failures
included).

Three behaviours of the code are worth stating outright:

- The code stores `last_meta_op` for every recognized command, `%status`
  included (`response.py:207`).
- The code stores `last_meta_op` after `%reset` and `%flush` have cleared the
  store. So `%reset` followed by `%status` shows a context that holds only
  `last_meta_op: "%reset"`, not an empty one (`MetaCommand.ResetThenStatus`).
- IdiomCheck runs on the idiom chat text whenever idiom chat answers, before
  the choice between the chat candidates (`response.py:114`). Only the idiom
  candidate's key uses its result.

`fetch_downstream.py` as it appears in the repository is not the module that
`response.py` imports:

- its service calls take two arguments, but the QA calls pass three;
- it defines no `idiom_check`;
- it defines none of the context-store functions.

So the services and the store are modelled from the way `response.py` uses
them, not from that file.

## Model

| member | source | states |
|---|---|---|
| `ContextStore.AfterSet` | response.py:157 | setting a field stores the value exactly when it is present and non-empty, and leaves every other field and every other user as it was |
| `ContextStore.AfterDelete` | response.py:155-156 | deleting a field removes it and changes no other field and no other user |
| `ContextStore.AfterReset` | response.py:175-177 | a reset empties the user's record and keeps every other user's |
| `ContextStore.AfterFlush` | response.py:179-181 | a flush leaves every user with an empty record |
| `ContextStore.Store.constructor` | response.py:2-4 | a new store holds no records |
| `ContextStore.Store.Get` | response.py:69 | fetching a user's context returns that user's record, or an empty one for an unknown user |
| `ContextStore.Store.Set` | response.py:157 | the store's new records are exactly the result of `AfterSet` on the old ones |
| `ContextStore.Store.Delete` | response.py:155-156 | the store's new records are exactly the result of `AfterDelete` on the old ones |
| `ContextStore.Store.Reset` | response.py:176 | the store's new records are exactly the result of `AfterReset` on the old ones |
| `ContextStore.Store.Flush` | response.py:180 | the store's new records are exactly the result of `AfterFlush` |
| `Response.ToValidText` | response.py:37-44 | the result is present exactly when the input is a non-empty string, and then it is that string |
| `Response.ToValidTextIdempotent` | response.py:37-44 | validating an already validated value changes nothing |
| `Response.QaFromReply` | response.py:46-66 | a failed QA call gives no answer; a successful one is tagged with its own domain; it has text exactly when the service's answer field is a non-empty string, and then that text; it has a key exactly when the service's key field is a non-empty string, and then that key |
| `Response.IdiomQa` | response.py:57-66 | the idiom QA answer is what IdiomQA replies when given the context's `idiom` field as its hint, validated and tagged `idiom` |
| `Response.PoetryQa` | response.py:46-55 | the poetry QA answer is what PoetryQA replies when given the context's `poem` field as its hint, validated and tagged `poem` |
| `Response.QaHintOnly` | response.py:48-59 | a QA candidate depends on the context only through its own domain's field |
| `Response.QaOrder` | response.py:71-75 | the two QA services are each tried once, and idiom QA comes first exactly when the context has an `idiom` field |
| `Response.FirstWithTextSpec` | response.py:77-83 | the QA loop returns the earliest candidate with text, and every candidate before it has none; when none has text the answer is empty |
| `Response.QaAnswer` | response.py:68-83 | the loop with its early return computes exactly the QA resolution for the user's stored context |
| `Response.QaResolve` | response.py:68-83 | the QA resolution is either no answer or an answer with text, and then exactly the candidate of the service it is tagged with |
| `Response.QaResolvePriority` | response.py:68-83 | the QA answer is the preferred service's answer if it has text, otherwise the other service's if it has text, otherwise no answer; idiom is preferred exactly when the context has an `idiom` field |
| `Response.QaResolveTagged` | response.py:46-83 | a QA answer with text has non-empty text and is exactly what the service named by its tag replied; there is no QA text exactly when neither service gave any |
| `Response.QaFirstAnswerShadows` | response.py:78-81 | once the preferred QA service has text, any reply function put in place of the other service leaves the answer unchanged |
| `Response.PoetryChat` | response.py:93-105 | a failed poetry chat call gives no candidate; otherwise the candidate keeps the text and score it was given, and its key is present exactly when the poem field is a non-empty string, and then is that string |
| `Response.IdiomInText` | response.py:85-91 | a failed IdiomCheck call gives no key |
| `Response.IdiomChat` | response.py:108-119 | a failed idiom chat call gives no candidate; otherwise the candidate keeps the text and score it was given, and its key is what IdiomCheck finds in that text |
| `Response.ChooseChat` | response.py:131-147 | the chat answer has text exactly when one candidate's text is non-empty, and is otherwise empty; an idiom winner has non-empty text and a score at least the poetry score when poetry also has text; a poetry winner has the strictly higher score when the idiom candidate also has text |
| `Response.ChatResolve` | response.py:121-147 | the chat answer has text exactly when one of the two chat candidates does, and is otherwise empty; a poetry winner carries the poetry text and key and beats any idiom text strictly on score; an idiom winner carries the idiom text, the key IdiomCheck found in it, and a score at least any poetry text's |
| `Response.ChatChoiceByScore` | response.py:131-132 | with both candidates holding text, idiom wins exactly when its score is at least poetry's, and poetry wins exactly when its score is strictly higher |
| `Response.Truncate` | response.py:158 | the cut text is a prefix of the original whose length is the smaller of the original length and 128 |
| `Response.TaggedReply` | response.py:168 | the reply starts with its tag, and what follows is a prefix of the answer of length min(length, 128) |
| `Response.ClearDomains` | response.py:170-171 | after clearing, neither `poem` nor `idiom` is set, and every other field and every other user is as before |
| `Response.SwitchDomain` | response.py:155-157 | after switching, the other domain's field is absent, the winner's field holds the key exactly when the key is non-empty and is absent otherwise, and nothing else changes |
| `Response.Responding` | response.py:150-172 | a request leaves every field other than `poem` and `idiom` and every other user unchanged, and at most one of `poem` and `idiom` set |
| `Response.Respond` | response.py:150-172 | the reply and the store's new records are exactly those given by the composer's specification for the old records |
| `Response.RespondingQaPrecedence` | response.py:151-162 | when QA has text, the chat and IdiomCheck services can reply anything without changing the reply or the context |
| `Response.RespondingReply` | response.py:150-172 | the reply is the apology exactly when neither QA nor chat has text; otherwise it is `[<domain>QA]`, or `[<domain>Chat]` when QA had nothing, followed by exactly the first min(length, 128) characters of the winner's text; no reply is longer than `[idiomChat]` plus 128 |
| `Response.RespondingContext` | response.py:153-171 | after a request at most one of `poem` and `idiom` is set; that one is the winner's field, holding the winner's key when the key is non-empty; with no winner both are cleared; every other field, `last_meta_op` included, and every other user is untouched |
| `Response.RespondingTotalFailure` | response.py:170-172 | when no service answers, the reply is the apology and the user's record is the old one with only `poem` and `idiom` removed |
| `MetaCommand.Split` | response.py:197 | splitting on colons gives at least one part |
| `MetaCommand.Join` | response.py:198 | a join starts with its first part, and joining colon-free parts gives a string with a colon exactly when there are at least two parts |
| `MetaCommand.JoinSplit` | response.py:197-198 | joining the parts with colons gives back the original string |
| `MetaCommand.SplitShape` | response.py:197 | a string without a colon splits into itself alone; one with a colon splits into two or more parts; no part contains a colon |
| `MetaCommand.SplitAfterHead` | response.py:197-198 | splitting a colon-free head, a colon and a rest gives the head followed by the parts of the rest |
| `MetaCommand.CommandSplit` | response.py:197-198 | the command head never contains a colon; when the query has a colon, head, colon and payload rebuild it; without one the head is the whole query and the payload is empty |
| `MetaCommand.CommandOfParts` | response.py:197-198 | a query built from a colon-free head, a colon and any payload yields exactly that head and that payload |
| `MetaCommand.Lower` | response.py:198 | lower-casing keeps the length and maps every character independently |
| `MetaCommand.LowerIdempotent` | response.py:198 | lower-casing twice is the same as lower-casing once |
| `MetaCommand.ContainsSpec` | response.py:209 | the substring test holds exactly when the substring occurs at some position |
| `MetaCommand.NotContainedWithoutChar` | response.py:209 | a string that lacks some character of the substring does not contain it |
| `MetaCommand.ParseOp` | response.py:187-195 | a recognized token is exactly the token of the command it names |
| `MetaCommand.TokenFacts` | response.py:187-202 | every command's token is recognized as that command, holds no colon and is not `%%`; `%%` itself is not in the table |
| `MetaCommand.DomainOfToken` | response.py:209 | a token containing `idiom` picks the idiom domain and otherwise one containing `poem` picks poem, so each service command picks its own domain and `%reset`, `%flush` and `%status` pick none |
| `MetaCommand.ResolveToken` | response.py:199-200 | any token but `%%` stands for itself; `%%` stands for the stored `last_meta_op`, and for nothing when none is stored |
| `MetaCommand.RunOp` | response.py:175-206 | `%idiomqa` and `%poemqa` run their own domain's QA service on the payload with that domain's hint, and `%idiomchat` and `%poemchat` their own chat service; each replies with that service's text when it is non-empty and with nothing otherwise, and carries that service's key; only `%reset` and `%flush` change the store; the administrative commands always reply and carry no key; exactly `%status` replies with the context snapshot, which is the user's record |
| `MetaCommand.MetaResponding` | response.py:186-215 | only a service command can give no reply; the reply is a context snapshot exactly when the command resolves to `%status`; an unresolved command leaves the store as it was |
| `MetaCommand.TextReply` | response.py:208 | a command reply is returned exactly when it is non-empty text, and it is never a context snapshot |
| `MetaCommand.MetaRespond` | response.py:174-215 | the reply and the store's new records are exactly those given by the dispatcher's specification for the old records |
| `MetaCommand.MetaUnsupported` | response.py:202-204 | an unrecognized command gets the unsupported reply and mutates nothing |
| `MetaCommand.RepeatWithoutHistory` | response.py:199-204 | `%%` with no remembered command gets the unsupported reply and mutates nothing |
| `MetaCommand.MetaRemembersCommand` | response.py:206-207 | a recognized command is stored as `last_meta_op` under its resolved token, which is never `%%` |
| `MetaCommand.MetaDownstreamContext` | response.py:206-215 | a service command replies with its own service's text on the payload when that text is non-empty, and with nothing otherwise; both domain fields are cleared and the command's own is set to that service's key exactly when there is a reply and the key is non-empty, and otherwise the domain fields are untouched; no field beyond these and `last_meta_op`, and no other user, changes |
| `MetaCommand.RepeatSpelling` | response.py:197-200 | `%%` on its own or followed by a colon and a payload is read as the repeat token with that payload |
| `MetaCommand.RepeatIsRemembered` | response.py:199-206 | `%%` does exactly what the remembered command with the same payload would do, reply and context alike |
| `MetaCommand.RepeatAfterCommand` | response.py:199-207 | after any recognized command, `%%` with the same payload runs that command again |
| `MetaCommand.ResetOutcome` | response.py:175-177 | `%reset` replies with its confirmation, empties the user's record and then stores `last_meta_op` |
| `MetaCommand.FlushOutcome` | response.py:179-181 | `%flush` replies with its confirmation, empties every record and then stores `last_meta_op` for the caller |
| `MetaCommand.OnlyLastOp` | response.py:207 | after a reset or flush, storing the token leaves a record holding only `last_meta_op` |
| `MetaCommand.ResetThenStatus` | response.py:175-184 | after `%reset` the record holds only `last_meta_op: "%reset"`, and a following `%status` shows exactly that |
| `MetaCommand.FlushClearsEveryone` | response.py:179-181 | after `%flush` every other user's record is empty and the caller's holds only `last_meta_op: "%flush"` |
| `MetaCommand.StatusShowsContext` | response.py:183-184 | `%status` shows the context as it was before the command and changes only `last_meta_op` |
| `MetaCommand.MetaOtherUsers` | response.py:174-215 | a meta-command leaves every other user's record as it was or, for `%flush`, empty |
| `MetaCommand.MetaKeepsLastOpsRecognized` | response.py:199-207 | if every stored `last_meta_op` names a command, it still does after any meta-command |
| `MetaCommand.RespondingKeepsLastOpsRecognized` | response.py:150-172 | the composer never breaks that invariant, because it never touches `last_meta_op` |
| `MetaCommand.RepeatRefusedIffNoHistory` | response.py:199-204 | under that invariant, `%%` is refused exactly when no command is remembered |

## Left out

- Score normalization (`response.py:27-35`) is floating-point arithmetic over fixed statistics. Chat scores enter the model already normalized, as reals. A failure to normalize is part of the chat service's failure reply.
- The `%status` reply is Python's `str()` rendering of the context dictionary. The model returns the context itself (`Snapshot`), not its printed form.
- `MetaCommand.Lower` folds only ASCII letters, while Python's `lower()` folds all of Unicode. Every command token is ASCII, and the model does not capture non-ASCII characters that Python folds into ASCII letters.
- `Response.PoetryChat` and `Response.IdiomChat` take the chat texts as optional strings. A chat text that is truthy but not a string is not modelled, so the reply concatenation that would fail on it is not modelled either.
- Which downstream calls are actually issued is not modelled. "The second QA service is not consulted" and "chat is not consulted" are stated as independence from those services' replies (`Response.QaFirstAnswerShadows`, `Response.RespondingQaPrecedence`).
- `_get_chat_answer` fetches the user's context and passes it on, but the chat services never use it. The model leaves that unused read out.
- Logging, `async` scheduling and concurrent requests on the same user are out of the model. Each request is one atomic step on the store.
- The context store's Redis implementation is out of the model. The store is an in-memory map with the behaviour `response.py` relies on.
- Exceptions are out of the model. Every kind of failed service call, such as a network error, a missing key or a malformed reply, is one failure variant per service.
- The HTTP front end (`app.py`) and the configuration (`config.py`) are not part of this model. The `/manager` handler (`app.py:39-42`) only echoes the query and the user id, and neither `app.py` nor `fetch_downstream.py` calls `responding` or `meta_responding`, so there is no routing between the two paths to model.
- `Response.IdiomInText` passes on what IdiomCheck returns without validating it, as the code does, and its contract says only what a failed call gives. The model takes that `idiom` field as an optional string, while the code passes on whatever JSON value it holds (`response.py:88`); values of any other type are not modelled.
