/**
 * The `buildMailtoLink` helper of `src/utils/email.ts`: a `mailto:` link (a
 * URI of the scheme in section 2 of RFC 6068) with a fixed recipient, then
 * the `subject` and `body` header fields, each percent-encoded with
 * `encodeURIComponent`. No page of the site calls it.
 */
module Mailto {
  import opened JsText
  import opened UriComponent

  datatype ContactFormData = ContactFormData(name: string, email: string, subject: string, message: string)

  const Recipient: string := "hello@govividmedia.com"

  /** Everything in the link before the encoded subject. */
  const LinkPrefix: string := "mailto:" + Recipient + "?subject="

  const BodyField: string := "&body="

  /** The message text: the sender's name and address on two lines, a blank line, then the message. */
  function MessageBody(data: ContactFormData): string {
    "Name: " + data.name + "\nEmail: " + data.email + "\n\n" + data.message
  }

  /** `buildMailtoLink(data)` */
  function BuildMailtoLink(data: ContactFormData): (link: string)
    ensures StartsWith(link, LinkPrefix)
  {
    LinkPrefix + Encode(data.subject) + BodyField + Encode(MessageBody(data))
  }

  /**
   * Reads the subject and body back out of a link with this recipient and
   * exactly these two header fields, percent-decoding each value.
   */
  function ParseMailtoLink(link: string): Option<(string, string)> {
    if !StartsWith(link, LinkPrefix) then None
    else
      var fields := Split(link[|LinkPrefix|..], '&');
      if |fields| != 2 || !StartsWith(fields[1], "body=") then None
      else
        match (Decode(fields[0]), Decode(fields[1][5..]))
        case (Some(subject), Some(body)) => Some((subject, body))
        case _ => None
  }

  lemma NoAmpersandInEncoding(s: string)
    ensures '&' !in Encode(s)
  {
  }

  lemma PrefixHasNoAmpersand()
    ensures '&' !in LinkPrefix
  {
    assert LinkPrefix == "mailto:hello@govividmedia.com?subject=";
  }

  lemma {:induction false} SeparatorBetween(subject: string, body: string)
    requires '&' !in subject && '&' !in body
    ensures var link := LinkPrefix + subject + BodyField + body;
            var i := |LinkPrefix| + |subject|;
            i + 6 <= |link| && link[i..i + 6] == BodyField
            && '&' !in link[..i] && '&' !in link[i + 1..]
  {
    var link := LinkPrefix + subject + BodyField + body;
    var i := |LinkPrefix| + |subject|;
    PrefixHasNoAmpersand();
    assert link[..i] == LinkPrefix + subject;
    assert link[i..i + 6] == BodyField;
    assert link[i + 1..] == "body=" + body;
  }

  /**
   * The link carries exactly one `&`, right after the encoded subject, and it
   * starts the `body=` field: neither value can inject another header field.
   */
  lemma SingleFieldSeparator(data: ContactFormData)
    ensures var link := BuildMailtoLink(data);
            var i := |LinkPrefix| + |Encode(data.subject)|;
            i + 6 <= |link| && link[i..i + 6] == BodyField
            && '&' !in link[..i] && '&' !in link[i + 1..]
  {
    NoAmpersandInEncoding(data.subject);
    NoAmpersandInEncoding(MessageBody(data));
    SeparatorBetween(Encode(data.subject), Encode(MessageBody(data)));
  }

  lemma AfterPrefix(a: string, b: string)
    ensures (a + b)[|a|..] == b
  {
  }

  lemma JoinPair(x: string, y: string, sep: char)
    ensures Join([x, y], sep) == x + [sep] + y
  {
    assert [x, y][1..] == [y];
  }

  lemma FieldsAfterPrefix(subject: string, body: string)
    requires '&' !in body
    ensures (LinkPrefix + subject + BodyField + body)[|LinkPrefix|..] == Join([subject, "body=" + body], '&')
    ensures '&' !in "body=" + body
  {
    var rest := subject + BodyField + body;
    assert LinkPrefix + subject + BodyField + body == LinkPrefix + rest;
    AfterPrefix(LinkPrefix, rest);
    assert BodyField == "&" + "body=";
    assert rest == subject + "&" + ("body=" + body);
    JoinPair(subject, "body=" + body, '&');
  }

  /** After the prefix, a built link is its two header fields joined by `&`. */
  lemma BuiltLinkFields(data: ContactFormData)
    ensures BuildMailtoLink(data)[|LinkPrefix|..]
            == Join([Encode(data.subject), "body=" + Encode(MessageBody(data))], '&')
    ensures '&' !in Encode(data.subject) && '&' !in "body=" + Encode(MessageBody(data))
  {
    NoAmpersandInEncoding(data.subject);
    NoAmpersandInEncoding(MessageBody(data));
    FieldsAfterPrefix(Encode(data.subject), Encode(MessageBody(data)));
  }

  /** Parsing a built link gives back the subject and the message body unchanged. */
  lemma ParseBuiltLink(data: ContactFormData)
    ensures ParseMailtoLink(BuildMailtoLink(data)) == Some((data.subject, MessageBody(data)))
  {
    var body := Encode(MessageBody(data));
    var fields := [Encode(data.subject), "body=" + body];
    BuiltLinkFields(data);
    SplitJoin(fields, '&');
    assert fields[1][5..] == body;
    DecodeEncode(data.subject);
    DecodeEncode(MessageBody(data));
  }
}
