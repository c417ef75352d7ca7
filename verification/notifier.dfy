/** The notifiers (backend/interfaces/notifier): the composer that fans one notification out to every
    configured notifier, the Slack notifier's message layout, and the generic webhook's configuration
    default and firing rules. HTTP transport, JSON marshalling and template rendering are parameters:
    a notifier's outcome is stated in terms of what the HTTP exchange or the template returned. */
module Notifier {
  import opened Wrappers
  import opened Errors
  import opened Domain
  import opened Application

  // ---------------------------------------------------------------------------------------------
  // Composer (composer.go).

  /** A configured notifier: what its Notify returns for given options. */
  type NotifyFunc = NotifyOptions -> Option<Error>

  /** The notifiers called, in call order, and the aggregated error. */
  datatype FanOut = FanOut(called: seq<string>, err: Option<Error>)

  /** The loop of Composer.Notify from the point where `acc` has been aggregated so far: every notifier is
      called, and each failure is joined onto the accumulator. `order` is the map's iteration order. */
  function ComposeFrom(notifiers: map<string, NotifyFunc>, order: seq<string>, opts: NotifyOptions, acc: Option<Error>): (r: FanOut)
    ensures acc.Some? ==> r.err.Some?
    ensures (forall i | 0 <= i < |order| :: order[i] !in notifiers) ==> r == FanOut([], acc)
    decreases |order|
  {
    if order == [] then FanOut([], acc)
    else if order[0] !in notifiers then ComposeFrom(notifiers, order[1..], opts, acc)
    else
      var e := notifiers[order[0]](opts);
      var rest := ComposeFrom(notifiers, order[1..], opts, if e.Some? then Some(Join(acc, e.value)) else acc);
      FanOut([order[0]] + rest.called, rest.err)
  }

  /** Composer.Notify. */
  function ComposeNotify(notifiers: map<string, NotifyFunc>, order: seq<string>, opts: NotifyOptions): (r: FanOut)
    ensures notifiers == map[] ==> r == FanOut([], None)
    ensures r.err.Some? ==> r.err.value.Joined?
  {
    ComposeFromJoins(notifiers, order, opts, None);
    ComposeFrom(notifiers, order, opts, None)
  }

  /** The aggregate of a run started from a nil or joined accumulator is nil or joined. */
  lemma {:induction false} ComposeFromJoins(notifiers: map<string, NotifyFunc>, order: seq<string>, opts: NotifyOptions, acc: Option<Error>)
    requires acc.Some? ==> acc.value.Joined?
    ensures ComposeFrom(notifiers, order, opts, acc).err.Some? ==> ComposeFrom(notifiers, order, opts, acc).err.value.Joined?
    decreases |order|
  {
    if order != [] {
      if order[0] !in notifiers {
        ComposeFromJoins(notifiers, order[1..], opts, acc);
      } else {
        var e := notifiers[order[0]](opts);
        ComposeFromJoins(notifiers, order[1..], opts, if e.Some? then Some(Join(acc, e.value)) else acc);
      }
    }
  }

  /** The errors of the failing notifiers, in call order: the reference the aggregate is compared with. */
  function Failures(notifiers: map<string, NotifyFunc>, order: seq<string>, opts: NotifyOptions): seq<Error>
    decreases |order|
  {
    if order == [] then []
    else if order[0] in notifiers && notifiers[order[0]](opts).Some? then
      [notifiers[order[0]](opts).value] + Failures(notifiers, order[1..], opts)
    else Failures(notifiers, order[1..], opts)
  }

  /** The messages of a list of errors. */
  function Messages(errs: seq<Error>): seq<string> {
    seq(|errs|, i requires 0 <= i < |errs| => Message(errs[i]))
  }

  /** Every notifier of the map is called once, in iteration order, whatever the others returned. */
  lemma {:induction false} ComposeCallsEach(notifiers: map<string, NotifyFunc>, order: seq<string>, opts: NotifyOptions, acc: Option<Error>)
    requires forall i | 0 <= i < |order| :: order[i] in notifiers
    ensures ComposeFrom(notifiers, order, opts, acc).called == order
    decreases |order|
  {
    if order != [] {
      var e := notifiers[order[0]](opts);
      ComposeCallsEach(notifiers, order[1..], opts, if e.Some? then Some(Join(acc, e.value)) else acc);
    }
  }

  /** From a nil accumulator the aggregate is nil exactly when no notifier failed. */
  lemma {:induction false} ComposeNilExactly(notifiers: map<string, NotifyFunc>, order: seq<string>, opts: NotifyOptions, acc: Option<Error>)
    ensures ComposeFrom(notifiers, order, opts, acc).err.None? <==> acc.None? && Failures(notifiers, order, opts) == []
    decreases |order|
  {
    if order != [] {
      if order[0] !in notifiers {
        ComposeNilExactly(notifiers, order[1..], opts, acc);
      } else {
        var e := notifiers[order[0]](opts);
        ComposeNilExactly(notifiers, order[1..], opts, if e.Some? then Some(Join(acc, e.value)) else acc);
      }
    }
  }

  /** A joined error's message lists its parts' messages, one per line. */
  lemma MessageOfJoined(errs: seq<Error>)
    ensures Message(Joined(errs)) == JoinLines(Messages(errs))
  {
  }

  /** Joining a line onto the first of several lines is the same as listing it after it. */
  lemma JoinLinesMerge(x: string, y: string, rest: seq<string>)
    ensures JoinLines([x + "\n" + y] + rest) == JoinLines([x, y] + rest)
  {
    assert ([x, y] + rest)[1..] == [y] + rest;
    assert ([y] + rest)[1..] == rest;
    assert ([x + "\n" + y] + rest)[1..] == rest;
  }

  /** The message of the aggregate started from `acc` lists the accumulator's message and then each
      failure's message, one per line. */
  lemma {:induction false} ComposeMessageFrom(notifiers: map<string, NotifyFunc>, order: seq<string>, opts: NotifyOptions, acc: Error)
    ensures ComposeFrom(notifiers, order, opts, Some(acc)).err.Some?
    ensures Message(ComposeFrom(notifiers, order, opts, Some(acc)).err.value)
         == JoinLines([Message(acc)] + Messages(Failures(notifiers, order, opts)))
    decreases |order|
  {
    if order == [] {
      assert [Message(acc)] + Messages([]) == [Message(acc)];
    } else if order[0] !in notifiers || notifiers[order[0]](opts).None? {
      ComposeMessageFrom(notifiers, order[1..], opts, acc);
    } else {
      var e := notifiers[order[0]](opts).value;
      var fs := Failures(notifiers, order[1..], opts);
      ComposeMessageFrom(notifiers, order[1..], opts, Join(Some(acc), e));
      assert Failures(notifiers, order, opts) == [e] + fs;
      JoinedMessageStep(acc, e, fs);
    }
  }

  /** Joining a failure onto the accumulator and listing the rest is listing the failure after the
      accumulator. */
  lemma JoinedMessageStep(acc: Error, e: Error, fs: seq<Error>)
    ensures JoinLines([Message(Join(Some(acc), e))] + Messages(fs)) == JoinLines([Message(acc)] + Messages([e] + fs))
  {
    MessageOfJoined([acc, e]);
    assert Messages([acc, e]) == [Message(acc), Message(e)];
    assert [Message(acc), Message(e)][1..] == [Message(e)];
    JoinLinesMerge(Message(acc), Message(e), Messages(fs));
    assert Messages([e] + fs) == [Message(e)] + Messages(fs);
    assert [Message(acc), Message(e)] + Messages(fs) == [Message(acc)] + Messages([e] + fs);
  }

  /** Composer.Notify's error message lists the message of every failing notifier, one per line, in call
      order; with no failure the result is nil. */
  lemma {:induction false} ComposeMessage(notifiers: map<string, NotifyFunc>, order: seq<string>, opts: NotifyOptions)
    ensures Failures(notifiers, order, opts) == [] <==> ComposeNotify(notifiers, order, opts).err.None?
    ensures Failures(notifiers, order, opts) != [] ==>
      Message(ComposeNotify(notifiers, order, opts).err.value) == JoinLines(Messages(Failures(notifiers, order, opts)))
    decreases |order|
  {
    ComposeNilExactly(notifiers, order, opts, None);
    if order != [] {
      if order[0] !in notifiers || notifiers[order[0]](opts).None? {
        ComposeMessage(notifiers, order[1..], opts);
      } else {
        var e := notifiers[order[0]](opts).value;
        var fs := Failures(notifiers, order[1..], opts);
        ComposeMessageFrom(notifiers, order[1..], opts, Join(None, e));
        MessageOfJoined([e]);
        assert Messages([e]) == [Message(e)];
        assert Messages([e] + fs) == [Message(e)] + Messages(fs);
      }
    }
  }

  /** Over one iteration of the configured map: each notifier is called exactly once, a failing one does not
      stop the rest, and the result is nil exactly when every notifier returned nil. */
  lemma ComposeNotifyContract(notifiers: map<string, NotifyFunc>, order: seq<string>, opts: NotifyOptions)
    requires Enumerates(order, notifiers.Keys)
    ensures ComposeNotify(notifiers, order, opts).called == order
    ensures ComposeNotify(notifiers, order, opts).err.None? <==> forall k | k in notifiers :: notifiers[k](opts).None?
  {
    ComposeCallsEach(notifiers, order, opts, None);
    ComposeMessage(notifiers, order, opts);
    FailuresEmpty(notifiers, order, opts);
  }

  /** No failure is listed exactly when every notifier met in `order` returned nil. */
  lemma {:induction false} FailuresEmpty(notifiers: map<string, NotifyFunc>, order: seq<string>, opts: NotifyOptions)
    ensures Failures(notifiers, order, opts) == [] <==>
      forall i | 0 <= i < |order| && order[i] in notifiers :: notifiers[order[i]](opts).None?
    decreases |order|
  {
    if order != [] {
      FailuresEmpty(notifiers, order[1..], opts);
      assert forall i | 1 <= i < |order| :: order[i] == order[1..][i - 1];
    }
  }

  // ---------------------------------------------------------------------------------------------
  // Slack (slack.go).

  datatype SlackConfig = SlackConfig(webhookURL: string, baseURL: string, iconSuccess: string, iconError: string, envInfoText: string)

  /** A Slack text object (Go type `Text`). */
  datatype TextObject = TextObject(kind: string, text: string)

  /** A Slack block; the message never sets an accessory. */
  datatype Block = Block(kind: string, text: Option<TextObject>, fields: seq<TextObject>)

  /** A section with one markdown text. */
  function Section(text: string): Block {
    Block("section", Some(TextObject("mrkdwn", text)), [])
  }

  /** A section made of fields. */
  function FieldSection(fields: seq<TextObject>): Block {
    Block("section", None, fields)
  }

  /** An info rendered as `*Header:*` and the text on the next line. */
  function InfoText(i: NotifyInfo): string {
    "*" + i.header + ":*\n" + i.text
  }

  function Field(i: NotifyInfo): TextObject {
    TextObject("mrkdwn", InfoText(i))
  }

  /** The info loop of Slack.Notify, from a pending field section `pending`: a large info flushes the
      pending fields and gets a section of its own; a small one joins the pending fields; the end flushes. */
  function Group(infos: seq<NotifyInfo>, pending: seq<TextObject>): seq<Block>
    decreases |infos|
  {
    if infos == [] then
      (if |pending| > 0 then [FieldSection(pending)] else [])
    else if infos[0].large then
      (if |pending| > 0 then [FieldSection(pending)] else []) + [Section(InfoText(infos[0]))] + Group(infos[1..], [])
    else Group(infos[1..], pending + [Field(infos[0])])
  }

  /** What a block shows, each item tagged with whether it stands in a section of its own. */
  function Items(b: Block): seq<(string, bool)> {
    if b.text.Some? then [(b.text.value.text, true)]
    else seq(|b.fields|, i requires 0 <= i < |b.fields| => (b.fields[i].text, false))
  }

  /** What a list of blocks shows, in order. */
  function Contents(bs: seq<Block>): seq<(string, bool)> {
    if bs == [] then [] else Items(bs[0]) + Contents(bs[1..])
  }

  /** The infos as they should appear: rendered, in order, tagged with their Large flag. */
  function Expected(infos: seq<NotifyInfo>): seq<(string, bool)> {
    seq(|infos|, i requires 0 <= i < |infos| => (InfoText(infos[i]), infos[i].large))
  }

  /** A block is a text section without fields, or a non-empty field section without text, both markdown. */
  predicate WellFormed(b: Block) {
    && b.kind == "section"
    && (b.text.Some? ==> b.fields == [] && b.text.value.kind == "mrkdwn")
    && (b.text.None? ==> |b.fields| > 0 && forall i | 0 <= i < |b.fields| :: b.fields[i].kind == "mrkdwn")
  }

  lemma {:induction false} ContentsAppend(a: seq<Block>, b: seq<Block>)
    ensures Contents(a + b) == Contents(a) + Contents(b)
    decreases |a|
  {
    if a != [] {
      assert (a + b)[0] == a[0];
      assert (a + b)[1..] == a[1..] + b;
      ContentsAppend(a[1..], b);
    } else {
      assert a + b == b;
    }
  }

  /** Flushing the pending fields shows them. */
  lemma FlushContents(pending: seq<TextObject>)
    ensures Contents(if |pending| > 0 then [FieldSection(pending)] else []) == Items(FieldSection(pending))
  {
    if |pending| > 0 {
      assert [FieldSection(pending)][1..] == [];
    }
  }

  /** A small info joins the pending fields as the last item. */
  lemma ItemsSnoc(pending: seq<TextObject>, i: NotifyInfo)
    ensures Items(FieldSection(pending + [Field(i)])) == Items(FieldSection(pending)) + [(InfoText(i), false)]
  {
  }

  lemma ExpectedCons(infos: seq<NotifyInfo>)
    requires infos != []
    ensures Expected(infos) == [(InfoText(infos[0]), infos[0].large)] + Expected(infos[1..])
  {
  }

  /** The blocks of a large info's step show the flushed fields, the info alone, then the rest's items. */
  lemma LargeStepContents(pending: seq<TextObject>, i: NotifyInfo, rest: seq<Block>)
    ensures Contents((if |pending| > 0 then [FieldSection(pending)] else []) + [Section(InfoText(i))] + rest)
         == Items(FieldSection(pending)) + [(InfoText(i), true)] + Contents(rest)
  {
    var flush := if |pending| > 0 then [FieldSection(pending)] else [];
    var s := [Section(InfoText(i))];
    assert s[1..] == [];
    calc {
      Contents((flush + s) + rest);
      { ContentsAppend(flush + s, rest); }
      Contents(flush + s) + Contents(rest);
      { ContentsAppend(flush, s); }
      Contents(flush) + Contents(s) + Contents(rest);
      { FlushContents(pending); }
      Items(FieldSection(pending)) + [(InfoText(i), true)] + Contents(rest);
    }
  }

  /** One large info: the flushed fields, its own section, then the rest. */
  lemma {:induction false} GroupLargeStep(infos: seq<NotifyInfo>, pending: seq<TextObject>)
    requires infos != [] && infos[0].large
    ensures Contents(Group(infos, pending)) == Items(FieldSection(pending)) + Expected(infos)
    decreases |infos|, 0
  {
    var rest := Group(infos[1..], []);
    GroupContents(infos[1..], []);
    assert Items(FieldSection([])) == [];
    assert Contents(rest) == Expected(infos[1..]);
    LargeStepContents(pending, infos[0], rest);
    ExpectedCons(infos);
  }

  /** The grouping keeps every info, in order, and a large info alone in its section; the pending fields
      come first. */
  lemma {:induction false} GroupContents(infos: seq<NotifyInfo>, pending: seq<TextObject>)
    ensures Contents(Group(infos, pending)) == Items(FieldSection(pending)) + Expected(infos)
    decreases |infos|, 1
  {
    if infos == [] {
      FlushContents(pending);
    } else if infos[0].large {
      GroupLargeStep(infos, pending);
    } else {
      GroupContents(infos[1..], pending + [Field(infos[0])]);
      ItemsSnoc(pending, infos[0]);
      ExpectedCons(infos);
    }
  }

  /** Every block of the grouping is well formed, and no two field sections are adjacent: each run of small
      infos fills exactly one section. */
  lemma {:induction false} GroupShape(infos: seq<NotifyInfo>, pending: seq<TextObject>)
    requires forall i | 0 <= i < |pending| :: pending[i].kind == "mrkdwn"
    ensures forall i | 0 <= i < |Group(infos, pending)| :: WellFormed(Group(infos, pending)[i])
    ensures forall i | 0 <= i < |Group(infos, pending)| - 1 :: Group(infos, pending)[i].text.Some? || Group(infos, pending)[i + 1].text.Some?
    ensures |pending| > 0 && |Group(infos, pending)| > 0 ==> Group(infos, pending)[0].text.None?
    ensures |pending| == 0 && |Group(infos, pending)| > 0 ==> Group(infos, pending)[0].text.Some? || !infos[0].large
    decreases |infos|
  {
    if infos != [] {
      if infos[0].large {
        GroupShape(infos[1..], []);
      } else {
        GroupShape(infos[1..], pending + [Field(infos[0])]);
      }
    }
  }

  /** The link to the source's page in the UI. */
  function LinkText(cfg: SlackConfig, id: string): string {
    "<" + cfg.baseURL + id + "|View at Nomad Ops>"
  }

  /** The message Slack.Notify builds. */
  function SlackMessage(cfg: SlackConfig, opts: NotifyOptions): (r: seq<Block>)
    ensures |r| >= 2
    // The icon line opens the message, the environment text closes it, and the source link, when there is
    // a source, comes just before that.
    ensures r[0] == Section((if opts.notificationType == NotificationError then cfg.iconError else cfg.iconSuccess) + " " + opts.message)
    ensures r[|r| - 1] == Section(cfg.envInfoText)
    ensures opts.source.Some? ==> |r| >= 3 && r[|r| - 2] == Section(LinkText(cfg, opts.source.value.id))
  {
    var icon := if opts.notificationType == NotificationError then cfg.iconError else cfg.iconSuccess;
    [Section(icon + " " + opts.message)]
    + Group(opts.infos, [])
    + (if opts.source.Some? then [Section(LinkText(cfg, opts.source.value.id))] else [])
    + [Section(cfg.envInfoText)]
  }

  /** The message's layout: the icon line first, the environment text last, the link just before it exactly
      when a source is set, and in between the infos in order, each large one alone in a section, small
      ones grouped into maximal field sections, none empty. */
  lemma SlackLayout(cfg: SlackConfig, opts: NotifyOptions)
    ensures var r := SlackMessage(cfg, opts);
      && r[0] == Section((if opts.notificationType == NotificationError then cfg.iconError else cfg.iconSuccess) + " " + opts.message)
      && r[|r| - 1] == Section(cfg.envInfoText)
      && (opts.source.Some? ==> |r| >= 3 && r[|r| - 2] == Section(LinkText(cfg, opts.source.value.id)))
      && var middle := r[1..|r| - 1 - (if opts.source.Some? then 1 else 0)];
      && Contents(middle) == Expected(opts.infos)
      && (forall i | 0 <= i < |middle| :: WellFormed(middle[i]))
      && (forall i | 0 <= i < |middle| - 1 :: middle[i].text.Some? || middle[i + 1].text.Some?)
  {
    var r := SlackMessage(cfg, opts);
    var g := Group(opts.infos, []);
    var tail := (if opts.source.Some? then [Section(LinkText(cfg, opts.source.value.id))] else []) + [Section(cfg.envInfoText)];
    assert r == [r[0]] + g + tail;
    assert r[1..|r| - |tail|] == g;
    GroupContents(opts.infos, []);
    assert Items(FieldSection([])) == [];
    GroupShape(opts.infos, []);
  }

  datatype SlackSend = SlackSend(posted: Option<seq<Block>>, err: Option<Error>)

  const ErrWebhookMessage := Simple("could not send Webhook Message")

  /** Slack.Notify: no webhook URL means nothing is sent; otherwise the message is posted, and `response`
      (the status code, or the transport's error) decides the result. */
  function SlackNotify(cfg: SlackConfig, opts: NotifyOptions, response: Result<int, Error>): (r: SlackSend)
    ensures cfg.webhookURL == "" ==> r == SlackSend(None, None)
    ensures cfg.webhookURL != "" ==> r.posted == Some(SlackMessage(cfg, opts))
    ensures cfg.webhookURL != "" && response.Failure? ==> r.err == Some(response.error)
    ensures cfg.webhookURL != "" && response.Success? ==> (r.err.None? <==> response.value == 200)
  {
    if cfg.webhookURL == "" then SlackSend(None, None)
    else
      var msg := SlackMessage(cfg, opts);
      match response
      case Failure(e) => SlackSend(Some(msg), Some(e))
      case Success(code) => SlackSend(Some(msg), if code != 200 then Some(ErrWebhookMessage) else None)
  }

  // ---------------------------------------------------------------------------------------------
  // Webhook (webhook.go).

  datatype WebhookConfig = WebhookConfig(
    webhookURL: string,
    httpMethod: string,
    bodyTemplate: string,
    queryParamsTemplate: string,
    insecure: bool,
    timeout: nat,
    authHeaderName: string,
    authHeaderValue: string,
    fireOn: seq<string>,
    logTemplateResults: bool)

  /** A created webhook: its effective configuration and whether a body or query template was parsed. */
  datatype Webhook = Webhook(cfg: WebhookConfig, hasBody: bool, hasQuery: bool)

  /** CreateWebhook: the method defaults to POST when a URL is set, and each non-empty template is parsed
      (`parse` returns the template parser's error), the body template first. */
  function CreateWebhook(cfg: WebhookConfig, parse: string -> Option<Error>): (r: Result<Webhook, Error>)
    ensures r.Failure? <==>
      (cfg.bodyTemplate != "" && parse(cfg.bodyTemplate).Some?) || (cfg.queryParamsTemplate != "" && parse(cfg.queryParamsTemplate).Some?)
    ensures r.Failure? && cfg.bodyTemplate != "" && parse(cfg.bodyTemplate).Some? ==> r.error == parse(cfg.bodyTemplate).value
    ensures r.Failure? && !(cfg.bodyTemplate != "" && parse(cfg.bodyTemplate).Some?) ==> r.error == parse(cfg.queryParamsTemplate).value
    ensures r.Success? ==>
      && r.value.cfg == cfg.(httpMethod := r.value.cfg.httpMethod)
      && (r.value.cfg.httpMethod == cfg.httpMethod <==> cfg.httpMethod != "" || cfg.webhookURL == "")
      && (r.value.cfg.httpMethod != cfg.httpMethod ==> r.value.cfg.httpMethod == "POST")
      && (r.value.hasBody <==> cfg.bodyTemplate != "")
      && (r.value.hasQuery <==> cfg.queryParamsTemplate != "")
  {
    var c := if cfg.httpMethod == "" && cfg.webhookURL != "" then cfg.(httpMethod := "POST") else cfg;
    if cfg.bodyTemplate != "" && parse(cfg.bodyTemplate).Some? then Failure(parse(cfg.bodyTemplate).value)
    else if cfg.queryParamsTemplate != "" && parse(cfg.queryParamsTemplate).Some? then Failure(parse(cfg.queryParamsTemplate).value)
    else Success(Webhook(c, cfg.bodyTemplate != "", cfg.queryParamsTemplate != ""))
  }

  /** Creating a webhook again from a created one's configuration changes nothing. */
  lemma CreateWebhookIsIdempotent(cfg: WebhookConfig, parse: string -> Option<Error>)
    requires CreateWebhook(cfg, parse).Success?
    ensures CreateWebhook(CreateWebhook(cfg, parse).value.cfg, parse) == CreateWebhook(cfg, parse)
  {
  }

  /** The FireOn loop: whether some entry equals the type's name. */
  function AnyMatches(fireOn: seq<string>, name: string): bool
    decreases |fireOn|
  {
    if fireOn == [] then false else fireOn[0] == name || AnyMatches(fireOn[1..], name)
  }

  /** The webhook fires for a type when FireOn is empty or names it. */
  predicate Fires(fireOn: seq<string>, t: NotificationType) {
    |fireOn| == 0 || AnyMatches(fireOn, NotificationTypeName(t))
  }

  /** The FireOn loop finds the type exactly when the list holds it. */
  lemma {:induction false} AnyMatchesIsMembership(fireOn: seq<string>, name: string)
    ensures AnyMatches(fireOn, name) <==> name in fireOn
    decreases |fireOn|
  {
    if fireOn != [] {
      AnyMatchesIsMembership(fireOn[1..], name);
      assert fireOn == [fireOn[0]] + fireOn[1..];
    }
  }

  /** The request handed to the HTTP client. `rawQuery` is None when no query template replaced the URL's
      query; `headers` maps each set header name to its value. */
  datatype WebhookRequest = WebhookRequest(
    httpMethod: string,
    url: string,
    body: Option<string>,
    rawQuery: Option<string>,
    headers: map<string, string>)

  datatype WebhookSend = WebhookSend(sent: Option<WebhookRequest>, err: Option<Error>)

  /** What the collaborators of one Webhook.Notify return: the rendered body template, the request
      constructor's error (a bad method or URL), the rendered query template, the query parser applied to
      it (the re-encoded query, or its error), and the HTTP exchange (status code, or transport error). */
  datatype WebhookIO = WebhookIO(
    body: Result<string, Error>,
    newRequest: Option<Error>,
    query: Result<string, Error>,
    parseQuery: string -> Result<string, Error>,
    response: Result<int, Error>)

  /** The headers of the request: JSON content type, then the auth header when both its parts are set. */
  function Headers(cfg: WebhookConfig): (r: map<string, string>)
    ensures cfg.authHeaderName != "" && cfg.authHeaderValue != "" ==>
      r.Keys == {"Content-Type", cfg.authHeaderName} && r[cfg.authHeaderName] == cfg.authHeaderValue
    ensures cfg.authHeaderName == "" || cfg.authHeaderValue == "" ==> r == map["Content-Type" := "application/json"]
    // The auth header overrides the content type only when it is named Content-Type.
    ensures cfg.authHeaderName != "Content-Type" ==> r["Content-Type"] == "application/json"
  {
    var base := map["Content-Type" := "application/json"];
    if cfg.authHeaderName != "" && cfg.authHeaderValue != "" then base[cfg.authHeaderName := cfg.authHeaderValue] else base
  }

  /** Webhook.Notify. */
  function WebhookNotify(w: Webhook, opts: NotifyOptions, io: WebhookIO): (r: WebhookSend)
    ensures w.cfg.webhookURL == "" ==> r == WebhookSend(None, None)
    ensures !Fires(w.cfg.fireOn, opts.notificationType) ==> r == WebhookSend(None, None)
    ensures r.sent.Some? ==>
      && r.sent.value.httpMethod == w.cfg.httpMethod && r.sent.value.url == w.cfg.webhookURL
      && (r.sent.value.body.Some? <==> w.hasBody)
      && (r.sent.value.rawQuery.Some? <==> w.hasQuery)
    ensures r.sent.Some? && io.response.Failure? ==> r.err == Some(io.response.error)
    ensures r.sent.Some? && io.response.Success? ==> (r.err.None? <==> 200 <= io.response.value <= 299)
    ensures r.sent.None? && r.err.Some? ==>
      || (w.hasBody && io.body.Failure? && r.err.value == io.body.error)
      || io.newRequest == r.err
      || (w.hasQuery && io.query.Failure? && r.err.value == io.query.error)
      || (w.hasQuery && io.query.Success? && io.parseQuery(io.query.value).Failure? && r.err.value == io.parseQuery(io.query.value).error)
    // A request is sent exactly when the webhook fires and no template, request or query step fails.
    ensures r.sent.Some? <==>
      && w.cfg.webhookURL != "" && Fires(w.cfg.fireOn, opts.notificationType)
      && !(w.hasBody && io.body.Failure?) && io.newRequest.None?
      && !(w.hasQuery && (io.query.Failure? || io.parseQuery(io.query.value).Failure?))
    // Its body is the rendered body template, its query the re-encoded rendered query template.
    ensures r.sent.Some? && w.hasBody ==> io.body.Success? && r.sent.value.body == Some(io.body.value)
    ensures r.sent.Some? && w.hasQuery ==>
      io.query.Success? && io.parseQuery(io.query.value).Success? && r.sent.value.rawQuery == Some(io.parseQuery(io.query.value).value)
    ensures r.sent.Some? ==> r.sent.value.headers == Headers(w.cfg)
  {
    if w.cfg.webhookURL == "" then WebhookSend(None, None)
    else if !Fires(w.cfg.fireOn, opts.notificationType) then WebhookSend(None, None)
    else if w.hasBody && io.body.Failure? then WebhookSend(None, Some(io.body.error))
    else if io.newRequest.Some? then WebhookSend(None, io.newRequest)
    else if w.hasQuery && io.query.Failure? then WebhookSend(None, Some(io.query.error))
    else if w.hasQuery && io.parseQuery(io.query.value).Failure? then WebhookSend(None, Some(io.parseQuery(io.query.value).error))
    else
      var req := WebhookRequest(
        w.cfg.httpMethod, w.cfg.webhookURL,
        if w.hasBody then Some(io.body.value) else None,
        if w.hasQuery then Some(io.parseQuery(io.query.value).value) else None,
        Headers(w.cfg));
      match io.response
      case Failure(e) => WebhookSend(Some(req), Some(e))
      case Success(code) => WebhookSend(Some(req), if code > 299 || code < 200 then Some(ErrWebhookMessage) else None)
  }

  /** The auth header is sent exactly when both its name and value are set; besides it only the content
      type is set. */
  lemma WebhookAuthHeader(w: Webhook, opts: NotifyOptions, io: WebhookIO)
    requires WebhookNotify(w, opts, io).sent.Some?
    ensures var h := WebhookNotify(w, opts, io).sent.value.headers;
      && (w.cfg.authHeaderName != "" && w.cfg.authHeaderValue != "" ==> w.cfg.authHeaderName in h && h[w.cfg.authHeaderName] == w.cfg.authHeaderValue)
      && (w.cfg.authHeaderName == "" || w.cfg.authHeaderValue == "" ==> h == map["Content-Type" := "application/json"])
      && (forall name | name in h :: name == "Content-Type" || name == w.cfg.authHeaderName)
  {
  }

  /** A webhook with a URL and no template sends a request exactly when it fires for the type and the
      request can be built, and the request's type filter is the FireOn membership test. */
  lemma WebhookFiresExactly(w: Webhook, opts: NotifyOptions, io: WebhookIO)
    requires w.cfg.webhookURL != "" && !w.hasBody && !w.hasQuery && io.newRequest.None?
    ensures WebhookNotify(w, opts, io).sent.Some? <==>
      |w.cfg.fireOn| == 0 || NotificationTypeName(opts.notificationType) in w.cfg.fireOn
  {
    AnyMatchesIsMembership(w.cfg.fireOn, NotificationTypeName(opts.notificationType));
  }
}
