/** The message the email notification handler builds for a tick: subject, reminder count
    and plain-text body, and which failures reach its caller. The HTML body, the local
    date it embeds and the SMTP transport are not modelled. */
module EmailHandler {
  import opened Results
  import opened RepetitionEntity
  import opened Decimal
  import Text
  import RepetitionService

  /** The parts of a topic and a user the handler reads. */
  datatype Topic = Topic(id: TopicId, userId: UserId, title: string)

  datatype User = User(email: string)

  datatype Email = Email(to: string, subject: string, text: string)

  /** The composed email and whether the transport accepted it. */
  datatype Delivery = Delivery(email: Email, sent: bool)

  /** `NotFoundException('User not found')` from the user lookup. */
  datatype HandlerError = UserNotFound

  const SubjectPrefix := "Reminder: "

  const CountPrefix := "reminder #"

  /** The reminder counter shown to the user: the bare count for an unbounded repetition,
      `<count> of <cap>` for a bounded one. */
  function CountText(currentCount: nat, repeatCount: nat): string {
    if repeatCount == 0 then NatToString(currentCount)
    else NatToString(currentCount) + " of " + NatToString(repeatCount)
  }

  function PlainText(title: string, countText: string): string {
    SubjectPrefix + title + "\n\nThis is " + CountPrefix + countText + " for your topic: " + title
      + ".\n\nDon't forget to review your topic content!"
  }

  lemma PlainTextMentions(title: string, countText: string)
    ensures Text.Contains(PlainText(title, countText), CountPrefix + countText)
    ensures Text.Contains(PlainText(title, countText), title)
  {
    var body := PlainText(title, countText);
    var at := |SubjectPrefix| + |title| + |"\n\nThis is "|;
    assert body[at..at + |CountPrefix + countText|] == CountPrefix + countText;
    Text.ContainsAt(body, CountPrefix + countText, at);
    assert body[|SubjectPrefix|..|SubjectPrefix| + |title|] == title;
    Text.ContainsAt(body, title, |SubjectPrefix|);
  }

  /** `handle`: the owner of the topic is looked up first, and a missing user escapes as
      NotFound before anything is sent. Otherwise the email goes to the owner with subject
      `Reminder: <title>` and a plain-text body naming the reminder number and the title; a
      failed send is only logged, so the handler still completes normally. */
  function Handle(rec: Repetition, topic: Topic, user: Option<User>, sendSucceeds: bool)
    : (r: Result<Delivery, HandlerError>)
    ensures user.None? <==> r.Err?
    ensures r.Ok? ==>
      && r.value.email.to == user.value.email
      && r.value.email.subject == SubjectPrefix + topic.title
      && Text.Contains(r.value.email.text, CountPrefix + CountText(rec.currentCount, rec.repeatCount))
      && Text.Contains(r.value.email.text, topic.title)
      && r.value.sent == sendSucceeds
  {
    if user.None? then Err(UserNotFound)
    else
      var countText := CountText(rec.currentCount, rec.repeatCount);
      PlainTextMentions(topic.title, countText);
      Ok(Delivery(Email(user.value.email, SubjectPrefix + topic.title, PlainText(topic.title, countText)), sendSucceeds))
  }

  /** Reads a reminder counter back: a digit string is an unbounded count, and
      `<digits> of <digits>` a bounded one. */
  function ParseCountText(t: string): Option<(nat, nat)> {
    var k := DigitPrefixLength(t);
    if k == 0 then None
    else if k == |t| then Some((ParseDigits(t), 0))
    else if k + 4 <= |t| && t[k..k + 4] == " of " && AllDigits(t[k + 4..]) then
      Some((ParseDigits(t[..k]), ParseDigits(t[k + 4..])))
    else None
  }

  /** The counter text determines both the count and the cap it was made from. */
  lemma CountTextRoundTrip(currentCount: nat, repeatCount: nat)
    ensures ParseCountText(CountText(currentCount, repeatCount)) == Some((currentCount, repeatCount))
  {
    var a := NatToString(currentCount);
    ParseNatToString(currentCount);
    if repeatCount == 0 {
      DigitPrefixOfDigits(a);
    } else {
      var b := NatToString(repeatCount);
      var t := CountText(currentCount, repeatCount);
      assert t == a + (" of " + b);
      DigitPrefixOfConcat(a, " of " + b);
      assert t[..|a|] == a;
      assert t[|a|..|a| + 4] == " of ";
      assert t[|a| + 4..] == b;
      ParseNatToString(repeatCount);
    }
  }

  /** Different counters never render the same reminder text. */
  lemma CountTextInjective(c1: nat, r1: nat, c2: nat, r2: nat)
    ensures CountText(c1, r1) == CountText(c2, r2) ==> c1 == c2 && r1 == r2
  {
    CountTextRoundTrip(c1, r1);
    CountTextRoundTrip(c2, r2);
  }

  /** The email a counted tick sends names the new count: `c + 1` for an unbounded row,
      `c + 1 of n` with `c + 1 <= n` for a bounded one. */
  lemma TickEmailShowsNewCount(
    s: RepetitionService.Scheduler, id: RepetitionId, topic: Topic, user: User, sendSucceeds: bool)
    requires id in s.timers.registry && id in s.store && s.store[id].isActive
    requires RepetitionService.ShouldContinue(s.store[id])
    ensures var tick := RepetitionService.Fire(s, id, true).1;
      && tick.Fired?
      && var d := Handle(tick.saved, topic, Some(user), sendSucceeds);
         && d.Ok?
         && ParseCountText(CountText(tick.saved.currentCount, tick.saved.repeatCount))
            == Some((s.store[id].currentCount + 1, s.store[id].repeatCount))
         && (s.store[id].repeatCount > 0 ==> s.store[id].currentCount + 1 <= s.store[id].repeatCount)
  {
    var tick := RepetitionService.Fire(s, id, true).1;
    CountTextRoundTrip(tick.saved.currentCount, tick.saved.repeatCount);
  }
}
