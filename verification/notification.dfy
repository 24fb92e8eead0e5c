/** The notification the waitlist endpoint sends: the submitted fields, the
    subject, and the ten text lines with their plain-text and HTML
    renderings. */
module Notification {
  import opened Wrappers
  import opened JsStrings

  /** The parsed request body; each field is None when it is missing or null. */
  datatype Payload = Payload(
    email: Option<string>,
    utmSource: Option<string>,
    utmMedium: Option<string>,
    utmCampaign: Option<string>,
    utmTerm: Option<string>,
    utmContent: Option<string>,
    referrer: Option<string>)

  /** The body a request without usable JSON behaves as: `{}`. */
  const EmptyPayload := Payload(None, None, None, None, None, None, None)

  /** What is handed to the email-delivery service. */
  datatype Message = Message(
    from: Option<string>,
    to: Option<string>,
    subject: string,
    text: string,
    html: string)

  const Placeholder := "-"
  const SubjectPrefix := "New BudMeet waitlist: "
  const PreOpen := "<pre style=\"font:14px/1.45 ui-monospace,SFMono-Regular,Menlo,Monaco,Consolas,'Liberation Mono','Courier New',monospace\">"
  const PreClose := "</pre>"

  /** The line labels, in the order the lines appear. */
  const Labels: seq<string> := [
    "Email: ", "UTM Source: ", "UTM Medium: ", "UTM Campaign: ", "UTM Term: ",
    "UTM Content: ", "Referrer: ", "User-Agent: ", "IP: ", "Time: "]

  /** `v ?? "-"`: only a missing value gets the placeholder. */
  function OrNullish(v: Option<string>): string {
    match v
    case None => Placeholder
    case Some(x) => x
  }

  /** `v || "-"`: a missing or empty value gets the placeholder. */
  function OrFalsy(v: Option<string>): string {
    match v
    case Some(x) => if x == "" then Placeholder else x
    case None => Placeholder
  }

  /** The value shown on each line, in label order. */
  function Values(email: string, p: Payload, userAgent: Option<string>, ip: string, time: string): seq<string>
  {
    [ email,
      OrNullish(p.utmSource), OrNullish(p.utmMedium), OrNullish(p.utmCampaign),
      OrNullish(p.utmTerm), OrNullish(p.utmContent), OrNullish(p.referrer),
      OrFalsy(userAgent), ip, time ]
  }

  /** The `lines` array: the email, the five UTM fields and the referrer
      with "-" only when missing, the user agent with "-" when missing or
      empty, then the client id and the timestamp. */
  function Lines(email: string, p: Payload, userAgent: Option<string>, ip: string, time: string): (ls: seq<string>)
    ensures |ls| == |Labels| == 10
    ensures ls[0] == "Email: " + email
    ensures ls[1] == "UTM Source: " + (if p.utmSource.None? then "-" else p.utmSource.value)
    ensures ls[2] == "UTM Medium: " + (if p.utmMedium.None? then "-" else p.utmMedium.value)
    ensures ls[3] == "UTM Campaign: " + (if p.utmCampaign.None? then "-" else p.utmCampaign.value)
    ensures ls[4] == "UTM Term: " + (if p.utmTerm.None? then "-" else p.utmTerm.value)
    ensures ls[5] == "UTM Content: " + (if p.utmContent.None? then "-" else p.utmContent.value)
    ensures ls[6] == "Referrer: " + (if p.referrer.None? then "-" else p.referrer.value)
    ensures ls[7] == "User-Agent: " + (if userAgent.None? || userAgent.value == "" then "-" else userAgent.value)
    ensures ls[8] == "IP: " + ip
    ensures ls[9] == "Time: " + time
  {
    var vs := Values(email, p, userAgent, ip, time);
    seq(10, i requires 0 <= i < 10 => Labels[i] + vs[i])
  }

  /** The message for an accepted email. */
  function Compose(email: string, p: Payload, userAgent: Option<string>, ip: string, time: string,
                   from: Option<string>, to: Option<string>): (m: Message)
    ensures m.from == from && m.to == to
    ensures m.subject == SubjectPrefix + email
    ensures m.text == Join(Lines(email, p, userAgent, ip, time), '\n')
    ensures m.html == PreOpen + m.text + PreClose
    ensures |m.text| > |Labels[0]| + |email| && m.text[..|Labels[0]| + |email|] == Labels[0] + email
  {
    var ls := Lines(email, p, userAgent, ip, time);
    var text := Join(ls, '\n');
    assert text == ls[0] + ['\n'] + Join(ls[1..], '\n');
    Message(from, to, SubjectPrefix + email, text, PreOpen + Join(ls, '\n') + PreClose)
  }

  /** Line i is label i followed by value i. */
  lemma LinesAreLabelled(email: string, p: Payload, userAgent: Option<string>, ip: string, time: string)
    ensures var ls := Lines(email, p, userAgent, ip, time);
            var vs := Values(email, p, userAgent, ip, time);
            forall i :: 0 <= i < 10 ==> ls[i] == Labels[i] + vs[i]
  {
  }

  /** When no value contains a line break, splitting the text at line breaks
      recovers the ten lines. */
  lemma TextLines(email: string, p: Payload, userAgent: Option<string>, ip: string, time: string,
                  from: Option<string>, to: Option<string>)
    requires var vs := Values(email, p, userAgent, ip, time);
             forall i :: 0 <= i < |vs| ==> '\n' !in vs[i]
    ensures Split(Compose(email, p, userAgent, ip, time, from, to).text, '\n') == Lines(email, p, userAgent, ip, time)
  {
    var ls := Lines(email, p, userAgent, ip, time);
    var vs := Values(email, p, userAgent, ip, time);
    LinesAreLabelled(email, p, userAgent, ip, time);
    forall i | 0 <= i < |ls| ensures '\n' !in ls[i] {
      assert '\n' !in Labels[i] && '\n' !in vs[i];
    }
    SplitJoin(ls, '\n');
  }

  /** For every payload, a UTM or referrer line is its bare label exactly
      when the value is present and empty (`??` keeps ""), while the
      User-Agent line is never bare (`||` replaces "" with "-"). */
  lemma PlaceholderRules(email: string, p: Payload, userAgent: Option<string>, ip: string, time: string)
    ensures var ls := Lines(email, p, userAgent, ip, time);
            && (ls[1] == Labels[1] <==> p.utmSource == Some(""))
            && (ls[2] == Labels[2] <==> p.utmMedium == Some(""))
            && (ls[3] == Labels[3] <==> p.utmCampaign == Some(""))
            && (ls[4] == Labels[4] <==> p.utmTerm == Some(""))
            && (ls[5] == Labels[5] <==> p.utmContent == Some(""))
            && (ls[6] == Labels[6] <==> p.referrer == Some(""))
            && ls[7] != Labels[7]
            && (userAgent.None? || userAgent == Some("") ==> ls[7] == Labels[7] + Placeholder)
  {
    var ls := Lines(email, p, userAgent, ip, time);
    assert |ls[7]| > |Labels[7]|;
  }
}
