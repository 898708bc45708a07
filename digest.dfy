/** How a weekly digest run reports to the chat user: the pipeline's result
    record becomes a list of outgoing messages (a header plus the chunked
    summary, or one failure message), which are sent in order; an exception
    anywhere, including a failed send, is answered by one attempted error
    message whose own failure is swallowed. The newsletter and the blog
    schedulers do exactly this and differ only in their texts. */
module Digest {
  import opened Wrappers
  import opened Text
  import Formatter
  import opened Workspace

  datatype Kind = Newsletter | Blog

  /** The success header, with the item count. */
  function Header(kind: Kind, count: nat): (r: string)
    ensures Contains(r, NatToString(count))
  {
    var prefix := match kind
      case Newsletter => "\U{1F4EC} Newsletter Digest - "
      case Blog => "\U{1F4F0} Tech Blog Digest - ";
    var suffix := match kind
      case Newsletter => " maili z ostatniego tygodnia\n\n"
      case Blog => " blog\U{F3}w z ostatniego tygodnia\n\n";
    ContainsAt(prefix + NatToString(count) + suffix, NatToString(count), |prefix|);
    prefix + NatToString(count) + suffix
  }

  /** The message sent when the pipeline reports failure. */
  function FailedText(kind: Kind, error: string): (r: string)
    ensures EndsWith(r, error)
  {
    match kind
    case Newsletter => "\U{274C} Newsletter digest failed: " + error
    case Blog => "\U{274C} Blog digest failed: " + error
  }

  /** The message sent when an exception is caught. */
  function ErrorText(kind: Kind, error: string): (r: string)
    ensures EndsWith(r, error)
  {
    match kind
    case Newsletter => "\U{274C} Newsletter digest error: " + error
    case Blog => "\U{274C} Blog digest error: " + error
  }

  /** What running the pipeline gave: a result record, or an exception with
      its text. */
  datatype ProcessOutcome = Returned(report: RunReport) | Thrown(message: string)

  /** Python's message for `header + None`. */
  const NoneConcatenation: string := "can only concatenate str (not \"NoneType\") to str"

  /** What the dispatch tries to send before anything goes wrong with
      sending: `Deliver` messages are sent in order inside the `try`;
      `Report` is the single message of the `except` branch. */
  datatype Plan = Deliver(messages: seq<string>) | Report(message: string)

  function PlanFor(kind: Kind, outcome: ProcessOutcome): (p: Plan)
    ensures outcome.Thrown? ==> p == Report(ErrorText(kind, outcome.message))
    ensures outcome.Returned? && !outcome.report.success ==>
      p == Deliver([FailedText(kind, outcome.report.error.GetOr("Unknown error"))])
    ensures outcome.Returned? && outcome.report.success && outcome.report.summary.Some? ==>
      p.Deliver? && Concat(p.messages) == Header(kind, outcome.report.count) + outcome.report.summary.value
    ensures outcome.Returned? && outcome.report.success && outcome.report.summary.None? ==>
      p == Report(ErrorText(kind, NoneConcatenation))
  {
    match outcome
    case Thrown(message) => Report(ErrorText(kind, message))
    case Returned(report) =>
      if !report.success then
        Deliver([FailedText(kind, report.error.GetOr("Unknown error"))])
      else if report.summary.None? then
        Report(ErrorText(kind, NoneConcatenation))
      else
        var text := Header(kind, report.count) + report.summary.value;
        Formatter.SplitConcat(text, Formatter.MessageLimit);
        Deliver(Formatter.Split(text, Formatter.MessageLimit))
  }

  /** The outcome of one `send_message` call. */
  datatype Delivery = Delivered | Rejected(reason: string)

  /** The k-th send attempt's outcome; attempts beyond the given list are
      delivered. */
  function OutcomeAt(deliveries: seq<Delivery>, k: nat): Delivery {
    if k < |deliveries| then deliveries[k] else Delivered
  }

  /** What reaches the chat when `plan` is carried out from send attempt
      `k` on, and how many send attempts that takes. */
  function Transcript(kind: Kind, plan: Plan, deliveries: seq<Delivery>, k: nat): (r: (seq<string>, nat))
    ensures k <= r.1
    decreases if plan.Deliver? then |plan.messages| else 0
  {
    match plan
    case Report(message) =>
      (if OutcomeAt(deliveries, k).Delivered? then [message] else [], k + 1)
    case Deliver(messages) =>
      if messages == [] then ([], k)
      else match OutcomeAt(deliveries, k)
        case Rejected(reason) => Transcript(kind, Report(ErrorText(kind, reason)), deliveries, k + 1)
        case Delivered =>
          var rest := Transcript(kind, Deliver(messages[1..]), deliveries, k + 1);
          ([messages[0]] + rest.0, rest.1)
  }

  /** The chat bot: every delivered message is appended to `log` with its
      recipient; `attempts` counts the calls of `send_message`, whose
      outcomes `deliveries` gives. */
  class Bot {
    var log: seq<(int, string)>
    var attempts: nat
    const deliveries: seq<Delivery>

    constructor (deliveries: seq<Delivery>)
      ensures this.deliveries == deliveries && log == [] && attempts == 0
    {
      this.deliveries := deliveries;
      log := [];
      attempts := 0;
    }

    /** `send_message(user, text)`. */
    method Send(user: int, text: string) returns (d: Delivery)
      modifies this
      ensures d == OutcomeAt(deliveries, old(attempts)) && attempts == old(attempts) + 1
      ensures log == if d.Delivered? then old(log) + [(user, text)] else old(log)
    {
      d := OutcomeAt(deliveries, attempts);
      attempts := attempts + 1;
      if d.Delivered? {
        log := log + [(user, text)];
      }
    }
  }

  /** The log entries for `texts`, all addressed to `user`. */
  function To(user: int, texts: seq<string>): (r: seq<(int, string)>)
    ensures |r| == |texts|
  {
    if texts == [] then [] else To(user, texts[..|texts| - 1]) + [(user, texts[|texts| - 1])]
  }

  lemma {:induction false} ToAppend(user: int, a: seq<string>, b: seq<string>)
    ensures To(user, a + b) == To(user, a) + To(user, b)
    decreases |b|
  {
    if b == [] {
      assert a + b == a;
    } else {
      assert (a + b)[..|a + b| - 1] == a + b[..|b| - 1];
      ToAppend(user, a, b[..|b| - 1]);
    }
  }

  /** One delivered message, then the rest of the plan. */
  lemma TranscriptDelivered(kind: Kind, messages: seq<string>, deliveries: seq<Delivery>, k: nat)
    requires messages != [] && OutcomeAt(deliveries, k).Delivered?
    ensures Transcript(kind, Deliver(messages), deliveries, k) ==
      ([messages[0]] + Transcript(kind, Deliver(messages[1..]), deliveries, k + 1).0,
       Transcript(kind, Deliver(messages[1..]), deliveries, k + 1).1)
  {
  }

  /** A rejected message: the rest of the plan is abandoned and one error
      message is attempted. */
  lemma TranscriptRejected(kind: Kind, messages: seq<string>, deliveries: seq<Delivery>, k: nat)
    requires messages != [] && OutcomeAt(deliveries, k).Rejected?
    ensures Transcript(kind, Deliver(messages), deliveries, k) ==
      Transcript(kind, Report(ErrorText(kind, OutcomeAt(deliveries, k).reason)), deliveries, k + 1)
  {
  }

  /** A digest scheduler: its kind, the chat user it reports to, and the
      bot it reports through. */
  class DigestScheduler {
    const kind: Kind
    const user: int
    const bot: Bot

    constructor (kind: Kind, user: int, bot: Bot)
      ensures this.kind == kind && this.user == user && this.bot == bot
    {
      this.kind := kind;
      this.user := user;
      this.bot := bot;
    }

    /** `_run_digest`, given what the pipeline did: the bot's log grows by
        exactly the transcript of the plan, all to the configured user, and
        the method itself never fails. */
    method RunDigest(outcome: ProcessOutcome)
      modifies bot
      ensures bot.log == old(bot.log) +
        To(user, Transcript(kind, PlanFor(kind, outcome), bot.deliveries, old(bot.attempts)).0)
      ensures bot.attempts == Transcript(kind, PlanFor(kind, outcome), bot.deliveries, old(bot.attempts)).1
    {
      var plan := PlanFor(kind, outcome);
      match plan
      case Report(message) =>
        var _ := bot.Send(user, message);
      case Deliver(messages) =>
        SendInOrder(messages);
    }

    /** The `except` branch: one attempt to send the error message; a
        rejection of that attempt is ignored. */
    method ReportError(reason: string)
      modifies bot
      ensures bot.log == old(bot.log) +
        To(user, Transcript(kind, Report(ErrorText(kind, reason)), bot.deliveries, old(bot.attempts)).0)
      ensures bot.attempts == old(bot.attempts) + 1
    {
      var e := ErrorText(kind, reason);
      var d := bot.Send(user, e);
      if d.Delivered? {
        assert To(user, [e]) == [(user, e)];
      }
    }

    /** The `for chunk in chunks` loop inside the `try`: messages are sent in
        order; the first rejected send ends the loop, and one error message
        about it is attempted, whose own rejection is ignored. */
    method SendInOrder(messages: seq<string>)
      modifies bot
      ensures bot.log == old(bot.log) +
        To(user, Transcript(kind, Deliver(messages), bot.deliveries, old(bot.attempts)).0)
      ensures bot.attempts == Transcript(kind, Deliver(messages), bot.deliveries, old(bot.attempts)).1
    {
      ghost var k0 := bot.attempts;
      ghost var deliveries := bot.deliveries;
      ghost var log0 := bot.log;
      var i := 0;
      while i < |messages|
        invariant 0 <= i <= |messages|
        invariant bot.attempts == k0 + i
        invariant bot.log == log0 + To(user, messages[..i])
        invariant AllDeliveredBetween(deliveries, k0, k0 + i)
      {
        var d := bot.Send(user, messages[i]);
        if d.Rejected? {
          ReportError(d.reason);
          RejectedEnds(kind, user, messages, deliveries, k0, i, d.reason, log0, bot.log);
          assert bot.attempts == k0 + i + 2;
          return;
        }
        DeliveredOneMore(deliveries, k0, k0 + i);
        LogNext(user, messages, i, log0);
        i := i + 1;
      }
      DeliveredEnds(kind, messages, deliveries, k0);
      assert messages[..i] == messages;
    }
  }

  /** Logging the `i`-th message extends the log of the first `i`. */
  lemma LogNext(user: int, messages: seq<string>, i: nat, log0: seq<(int, string)>)
    requires i < |messages|
    ensures log0 + To(user, messages[..i]) + [(user, messages[i])] == log0 + To(user, messages[..i + 1])
  {
    assert messages[..i + 1] == messages[..i] + [messages[i]];
    ToAppend(user, messages[..i], [messages[i]]);
    AppendAssociates(log0, To(user, messages[..i]), To(user, [messages[i]]));
  }

  /** The loop ran to its end: the whole plan was delivered. */
  lemma DeliveredEnds(kind: Kind, messages: seq<string>, deliveries: seq<Delivery>, k: nat)
    requires AllDeliveredBetween(deliveries, k, k + |messages|)
    ensures Transcript(kind, Deliver(messages), deliveries, k) == (messages, k + |messages|)
  {
    TranscriptAfterDelivered(kind, messages, deliveries, k, |messages|);
    assert messages[..|messages|] == messages && messages[|messages|..] == [];
    assert messages + [] == messages;
  }

  /** The `i`-th send was rejected after `i` delivered ones, and the error
      report was then attempted: the log holds the transcript of the whole
      plan. */
  lemma RejectedEnds(kind: Kind, user: int, messages: seq<string>, deliveries: seq<Delivery>, k: nat, i: nat,
                     reason: string, log0: seq<(int, string)>, log: seq<(int, string)>)
    requires i < |messages| && OutcomeAt(deliveries, k + i) == Rejected(reason)
    requires AllDeliveredBetween(deliveries, k, k + i)
    requires log == log0 + To(user, messages[..i]) +
      To(user, Transcript(kind, Report(ErrorText(kind, reason)), deliveries, k + i + 1).0)
    ensures log == log0 + To(user, Transcript(kind, Deliver(messages), deliveries, k).0)
    ensures k + i + 2 == Transcript(kind, Deliver(messages), deliveries, k).1
  {
    var tail := Transcript(kind, Report(ErrorText(kind, reason)), deliveries, k + i + 1);
    TranscriptAfterDelivered(kind, messages, deliveries, k, i);
    TranscriptRejected(kind, messages[i..], deliveries, k + i);
    ToAppend(user, messages[..i], tail.0);
    AppendAssociates(log0, To(user, messages[..i]), To(user, tail.0));
  }

  /** Every send attempt from `from` up to (not including) `to` goes through. */
  predicate AllDeliveredBetween(deliveries: seq<Delivery>, from: nat, to: nat) {
    forall a :: from <= a < to ==> OutcomeAt(deliveries, a).Delivered?
  }

  /** One more delivered send extends a run of delivered sends. */
  lemma DeliveredOneMore(deliveries: seq<Delivery>, from: nat, to: nat)
    requires AllDeliveredBetween(deliveries, from, to) && OutcomeAt(deliveries, to).Delivered?
    ensures AllDeliveredBetween(deliveries, from, to + 1)
  {
  }

  /** After `i` delivered sends the transcript is the first `i` messages
      followed by the transcript of the rest. */
  lemma {:induction false} TranscriptAfterDelivered(kind: Kind, messages: seq<string>, deliveries: seq<Delivery>, k: nat, i: nat)
    requires i <= |messages|
    requires AllDeliveredBetween(deliveries, k, k + i)
    ensures Transcript(kind, Deliver(messages), deliveries, k) ==
      (messages[..i] + Transcript(kind, Deliver(messages[i..]), deliveries, k + i).0,
       Transcript(kind, Deliver(messages[i..]), deliveries, k + i).1)
    decreases i
  {
    if i > 0 {
      assert OutcomeAt(deliveries, k).Delivered?;
      TranscriptDelivered(kind, messages, deliveries, k);
      TranscriptAfterDelivered(kind, messages[1..], deliveries, k + 1, i - 1);
      assert messages[1..][i - 1..] == messages[i..];
      var rest := Transcript(kind, Deliver(messages[i..]), deliveries, k + i);
      assert messages[..i] == [messages[0]] + messages[1..][..i - 1];
      AppendAssociates([messages[0]], messages[1..][..i - 1], rest.0);
    } else {
      assert messages[i..] == messages;
      assert messages[..i] + Transcript(kind, Deliver(messages), deliveries, k).0
        == Transcript(kind, Deliver(messages), deliveries, k).0;
    }
  }

  /** When every send goes through, a successful run delivers the header
      and the summary, split into chunks of at most 4096 characters, in
      order, and nothing else. */
  lemma SuccessDeliversChunks(kind: Kind, report: RunReport, k: nat)
    requires report.success && report.summary.Some?
    ensures var text := Header(kind, report.count) + report.summary.value;
      Transcript(kind, PlanFor(kind, Returned(report)), [], k).0 == Formatter.Split(text, Formatter.MessageLimit)
  {
    var text := Header(kind, report.count) + report.summary.value;
    AllDelivered(kind, Formatter.Split(text, Formatter.MessageLimit), k);
  }

  lemma {:induction false} AllDelivered(kind: Kind, messages: seq<string>, k: nat)
    ensures Transcript(kind, Deliver(messages), [], k) == (messages, k + |messages|)
    decreases |messages|
  {
    if messages != [] {
      AllDelivered(kind, messages[1..], k + 1);
      TranscriptDelivered(kind, messages, [], k);
      assert [messages[0]] + messages[1..] == messages;
    }
  }

  /** A run that reports failure sends at most one message; when that send
      goes through it is the failure text ending in the pipeline's error, or
      "Unknown error" when the record has none. */
  lemma FailureSendsOneMessage(kind: Kind, report: RunReport, deliveries: seq<Delivery>, k: nat)
    requires !report.success
    ensures var t := Transcript(kind, PlanFor(kind, Returned(report)), deliveries, k).0;
      |t| <= 1 && (OutcomeAt(deliveries, k).Delivered? ==>
        t == [FailedText(kind, report.error.GetOr("Unknown error"))])
  {
    var m := FailedText(kind, report.error.GetOr("Unknown error"));
    assert PlanFor(kind, Returned(report)) == Deliver([m]);
    if OutcomeAt(deliveries, k).Delivered? {
      TranscriptDelivered(kind, [m], deliveries, k);
      assert [m][1..] == [];
    } else {
      TranscriptRejected(kind, [m], deliveries, k);
    }
  }

  /** `b` begins with `a`. */
  predicate IsPrefix(a: seq<string>, b: seq<string>) {
    |a| <= |b| && b[..|a|] == a
  }

  /** Whatever happens, what reaches the chat is a prefix of the planned
      messages, possibly followed by one error message about a rejected
      send; and at most one send is attempted beyond the plan. */
  lemma {:induction false} TranscriptShape(kind: Kind, messages: seq<string>, deliveries: seq<Delivery>, k: nat)
    ensures Transcript(kind, Deliver(messages), deliveries, k).1 <= k + |messages| + 1
    ensures var t := Transcript(kind, Deliver(messages), deliveries, k).0;
      || IsPrefix(t, messages)
      || (t != [] && IsPrefix(t[..|t| - 1], messages) && exists reason :: t[|t| - 1] == ErrorText(kind, reason))
    decreases |messages|
  {
    if messages != [] {
      match OutcomeAt(deliveries, k)
      case Rejected(reason) =>
        TranscriptRejected(kind, messages, deliveries, k);
        var t := Transcript(kind, Deliver(messages), deliveries, k).0;
        assert t == [] || t == [ErrorText(kind, reason)];
        assert IsPrefix([], messages);
      case Delivered =>
        TranscriptShape(kind, messages[1..], deliveries, k + 1);
        TranscriptDelivered(kind, messages, deliveries, k);
        var t' := Transcript(kind, Deliver(messages[1..]), deliveries, k + 1).0;
        var t := [messages[0]] + t';
        assert t == Transcript(kind, Deliver(messages), deliveries, k).0;
        if IsPrefix(t', messages[1..]) {
          assert messages[..|t|] == [messages[0]] + messages[1..][..|t'|];
        } else {
          assert t[..|t| - 1] == [messages[0]] + t'[..|t'| - 1];
          assert messages[..|t| - 1] == [messages[0]] + messages[1..][..|t'| - 1];
          assert t[|t| - 1] == t'[|t'| - 1];
        }
    }
  }

  /** The blog digest for three posts with summary "great stuff" goes to the
      configured user, and its first message names the count. */
  lemma BlogDigestNamesCount(user: int)
    ensures var plan := PlanFor(Blog, Returned(RunReport(true, 3, None, Some("great stuff"), None)));
      plan.Deliver? && |plan.messages| == 1 && Contains(plan.messages[0], "3")
  {
    var text := Header(Blog, 3) + "great stuff";
    assert |text| <= Formatter.MessageLimit;
    assert NatToString(3) == "3";
    ContainsAppend(Header(Blog, 3), "3", "great stuff");
  }
}
