/**
 * Configuration-time values of the SMTP destination and the pure decisions made
 * on them: which header names the driver keeps for itself (afsmtp_dd_add_header)
 * and which header a recipient of each type produces (afsmtp_dd_msg_add_recipient).
 */
module Config {
  import opened Wrappers
  import opened Wash

  /**
   * afsmtp_rcpt_type_t. The enumeration is declared in afsmtp.h, which is not part
   * of this model; the members the driver tests are named, every other one is `Other`.
   */
  datatype RcptType = To | Cc | Bcc | ReplyTo | Other(code: int)

  /** A sender: display phrase and mailbox address (AFSMTPRecipient used for mail_from). */
  datatype Mailbox = Mailbox(phrase: string, address: string)

  /** AFSMTPRecipient: one configured recipient. */
  datatype Recipient = Recipient(phrase: string, address: string, rtype: RcptType)

  /** AFSMTPHeader: a user header name with the template text of its value. */
  datatype Header = Header(name: CString, template: string)

  /** g_ascii_tolower: only 'A'..'Z' change. */
  function AsciiLower(c: char): char
  {
    if 'A' <= c <= 'Z' then (c as int + 32) as char else c
  }

  /** The string with every ASCII capital letter lowered. */
  function AsciiLowerString(s: string): (r: string)
    ensures |r| == |s|
  {
    seq(|s|, i requires 0 <= i < |s| => AsciiLower(s[i]))
  }

  /** Equal up to ASCII letter case. */
  predicate EqualsIgnoringCase(a: string, b: string)
  {
    |a| == |b| && forall i :: 0 <= i < |a| ==> AsciiLower(a[i]) == AsciiLower(b[i])
  }

  /**
   * g_ascii_strcasecmp on two C strings: compare lowered characters until one
   * string ends or they differ; at the end, the difference of the next raw
   * characters (0 standing for the terminator).
   */
  function AsciiStrCaseCmp(s1: CString, s2: CString): (r: int)
    ensures s1 == s2 ==> r == 0
  {
    if |s1| == 0 || |s2| == 0 then
      (if |s1| == 0 then 0 else s1[0] as int) - (if |s2| == 0 then 0 else s2[0] as int)
    else if AsciiLower(s1[0]) != AsciiLower(s2[0]) then
      AsciiLower(s1[0]) as int - AsciiLower(s2[0]) as int
    else
      AsciiStrCaseCmp(s1[1..], s2[1..])
  }

  /** Swapping the arguments of g_ascii_strcasecmp negates its result. */
  lemma {:induction false} StrCaseCmpAntisymmetric(s1: CString, s2: CString)
    ensures AsciiStrCaseCmp(s1, s2) == -AsciiStrCaseCmp(s2, s1)
  {
    if |s1| != 0 && |s2| != 0 && AsciiLower(s1[0]) == AsciiLower(s2[0]) {
      StrCaseCmpAntisymmetric(s1[1..], s2[1..]);
    }
  }

  /** g_ascii_strcasecmp reports 0 exactly for C strings equal up to ASCII case. */
  lemma {:induction false} StrCaseCmpZeroIff(a: CString, b: CString)
    ensures AsciiStrCaseCmp(a, b) == 0 <==> EqualsIgnoringCase(a, b)
  {
    if |a| == 0 || |b| == 0 {
      if |a| != 0 { assert a[0] in a; }
      if |b| != 0 { assert b[0] in b; }
    } else if AsciiLower(a[0]) == AsciiLower(b[0]) {
      var a', b' := a[1..], b[1..];
      assert '\0' !in a' && '\0' !in b' by {
        forall k | 0 <= k < |a'| ensures a'[k] != '\0' { assert a'[k] == a[k + 1] && a[k + 1] in a; }
        forall k | 0 <= k < |b'| ensures b'[k] != '\0' { assert b'[k] == b[k + 1] && b[k + 1] in b; }
      }
      StrCaseCmpZeroIff(a', b');
      if EqualsIgnoringCase(a', b') {
        forall i | 0 <= i < |a| ensures AsciiLower(a[i]) == AsciiLower(b[i]) {
          if i > 0 { assert a[i] == a'[i - 1] && b[i] == b'[i - 1]; }
        }
      }
      if EqualsIgnoringCase(a, b) {
        forall i | 0 <= i < |a'| ensures AsciiLower(a'[i]) == AsciiLower(b'[i]) {
          assert a'[i] == a[i + 1] && b'[i] == b[i + 1];
        }
      }
    }
  }

  /** The header names the driver reserves and refuses from the configuration, in lower case. */
  const ReservedHeaderNames: set<string> := {"to", "cc", "bcc", "from", "sender", "reply-to", "date"}

  /**
   * The test at the head of afsmtp_dd_add_header: `name` is one of the driver's
   * own header names. Only names as long as a reserved one (2 to 8 characters)
   * can be refused; ReservedHeaderByLowerCase says exactly which.
   */
  predicate IsReservedHeader(name: CString)
    ensures IsReservedHeader(name) ==> 2 <= |name| <= 8
  {
    StrCaseCmpZeroIff(name, "to");
    StrCaseCmpZeroIff(name, "cc");
    StrCaseCmpZeroIff(name, "bcc");
    StrCaseCmpZeroIff(name, "from");
    StrCaseCmpZeroIff(name, "sender");
    StrCaseCmpZeroIff(name, "reply-to");
    StrCaseCmpZeroIff(name, "date");
    AsciiStrCaseCmp(name, "to") == 0 ||
    AsciiStrCaseCmp(name, "cc") == 0 ||
    AsciiStrCaseCmp(name, "bcc") == 0 ||
    AsciiStrCaseCmp(name, "from") == 0 ||
    AsciiStrCaseCmp(name, "sender") == 0 ||
    AsciiStrCaseCmp(name, "reply-to") == 0 ||
    AsciiStrCaseCmp(name, "date") == 0
  }

  /** Against a lower-case string, equality up to case is equality of the lowered string. */
  lemma EqualsIgnoringCaseLowered(a: string, b: string)
    requires AsciiLowerString(b) == b
    ensures EqualsIgnoringCase(a, b) <==> AsciiLowerString(a) == b
  {
    if EqualsIgnoringCase(a, b) {
      forall i | 0 <= i < |a| ensures AsciiLowerString(a)[i] == b[i] {
        assert AsciiLower(b[i]) == AsciiLowerString(b)[i];
      }
    }
    if AsciiLowerString(a) == b {
      forall i | 0 <= i < |a| ensures AsciiLower(a[i]) == AsciiLower(b[i]) {
        assert b[i] == AsciiLower(a[i]);
        assert AsciiLower(AsciiLower(a[i])) == AsciiLower(a[i]);
      }
    }
  }

  /**
   * Reference reading of the reserved-name test: a header name is refused exactly
   * when its lower-case form is one of the seven reserved names.
   */
  lemma ReservedHeaderByLowerCase(name: CString)
    ensures IsReservedHeader(name) <==> AsciiLowerString(name) in ReservedHeaderNames
  {
    forall r: CString | r in ReservedHeaderNames
      ensures AsciiStrCaseCmp(name, r) == 0 <==> AsciiLowerString(name) == r
    {
      StrCaseCmpZeroIff(name, r);
      EqualsIgnoringCaseLowered(name, r);
    }
    assert AsciiStrCaseCmp(name, "to") == 0 <==> AsciiLowerString(name) == "to";
    assert AsciiStrCaseCmp(name, "cc") == 0 <==> AsciiLowerString(name) == "cc";
    assert AsciiStrCaseCmp(name, "bcc") == 0 <==> AsciiLowerString(name) == "bcc";
    assert AsciiStrCaseCmp(name, "from") == 0 <==> AsciiLowerString(name) == "from";
    assert AsciiStrCaseCmp(name, "sender") == 0 <==> AsciiLowerString(name) == "sender";
    assert AsciiStrCaseCmp(name, "reply-to") == 0 <==> AsciiLowerString(name) == "reply-to";
    assert AsciiStrCaseCmp(name, "date") == 0 <==> AsciiLowerString(name) == "date";
  }

  /** The headers recipients are written into; all of them are reserved names. */
  const RecipientHeaderNames: set<string> := {"To", "Cc", "Reply-To"}

  /**
   * The switch of afsmtp_dd_msg_add_recipient: the message header a recipient of
   * type `t` is written into, or None for a recipient that only goes on the envelope.
   */
  function RecipientHeader(t: RcptType): (h: Option<CString>)
    ensures h.Some? <==> (t.To? || t.Cc? || t.ReplyTo?)
    ensures h.Some? ==> h.value in RecipientHeaderNames
  {
    match t
    case To => Some("To")
    case Cc => Some("Cc")
    case ReplyTo => Some("Reply-To")
    case _ => None
  }

  /** No recipient header can be configured as a user header: each is a reserved name. */
  lemma RecipientHeaderReserved(t: RcptType)
    ensures RecipientHeader(t).Some? ==> IsReservedHeader(RecipientHeader(t).value)
  {
  }

  /** One smtp_set_header call made for a recipient: header name, phrase, address. */
  datatype HeaderCall = HeaderCall(name: CString, phrase: string, address: string)

  /** What the recipients put into one outgoing message: envelope addresses and recipient headers, in call order. */
  datatype Envelope = Envelope(recipients: seq<string>, headers: seq<HeaderCall>)

  /** The header call made for `r`, if its type has a header. */
  function HeaderFor(r: Recipient): Option<HeaderCall>
  {
    match RecipientHeader(r.rtype)
    case Some(name) => Some(HeaderCall(name, r.phrase, r.address))
    case None => None
  }

  /** afsmtp_dd_msg_add_recipient: the address always goes on the envelope; the header only when there is one. */
  function AddRecipient(m: Envelope, r: Recipient): (m': Envelope)
    ensures |m'.recipients| == |m.recipients| + 1
    ensures forall i :: 0 <= i < |m.recipients| ==> m'.recipients[i] == m.recipients[i]
    ensures m'.recipients[|m.recipients|] == r.address
    ensures |m'.headers| == |m.headers| + (if r.rtype.To? || r.rtype.Cc? || r.rtype.ReplyTo? then 1 else 0)
    ensures forall j :: 0 <= j < |m.headers| ==> m'.headers[j] == m.headers[j]
    ensures |m'.headers| > |m.headers| ==>
              m'.headers[|m.headers|] == HeaderCall(RecipientHeader(r.rtype).value, r.phrase, r.address)
  {
    Envelope(m.recipients + [r.address],
             match HeaderFor(r) case Some(c) => m.headers + [c] case None => m.headers)
  }

  /**
   * The g_list_foreach over rcpt_tos in afsmtp_worker_insert: every recipient, in
   * order, is on the envelope, and every recipient header is a To, Cc or Reply-To header.
   */
  function AddRecipients(rs: seq<Recipient>): (m: Envelope)
    ensures |m.recipients| == |rs|
    ensures forall i :: 0 <= i < |rs| ==> m.recipients[i] == rs[i].address
    ensures forall c :: c in m.headers ==> c.name in RecipientHeaderNames
  {
    if rs == [] then Envelope([], [])
    else
      var m' := AddRecipients(rs[..|rs| - 1]);
      assert forall i :: 0 <= i < |rs| - 1 ==> rs[..|rs| - 1][i] == rs[i];
      AddRecipient(m', rs[|rs| - 1])
  }

  /**
   * The recipient headers of a message are exactly those of its To, Cc and
   * Reply-To recipients: each comes from one of them, and each of them has one.
   */
  lemma {:induction false} AddRecipientsHeaders(rs: seq<Recipient>)
    ensures forall j :: 0 <= j < |AddRecipients(rs).headers| ==>
              exists i :: 0 <= i < |rs| && HeaderFor(rs[i]) == Some(AddRecipients(rs).headers[j])
    ensures forall i :: 0 <= i < |rs| && HeaderFor(rs[i]).Some? ==>
              HeaderFor(rs[i]).value in AddRecipients(rs).headers
  {
    if rs == [] {
      assert AddRecipients(rs).headers == [];
    } else {
      var init, r := rs[..|rs| - 1], rs[|rs| - 1];
      AddRecipientsHeaders(init);
      var m', m := AddRecipients(init), AddRecipients(rs);
      assert m == AddRecipient(m', r);
      assert forall i :: 0 <= i < |init| ==> init[i] == rs[i];
      forall j | 0 <= j < |m.headers|
        ensures exists i :: 0 <= i < |rs| && HeaderFor(rs[i]) == Some(m.headers[j])
      {
        if j < |m'.headers| {
          var i :| 0 <= i < |init| && HeaderFor(init[i]) == Some(m'.headers[j]);
          assert HeaderFor(rs[i]) == Some(m.headers[j]);
        } else {
          assert HeaderFor(rs[|rs| - 1]) == Some(m.headers[j]);
        }
      }
      forall i | 0 <= i < |rs| && HeaderFor(rs[i]).Some?
        ensures HeaderFor(rs[i]).value in m.headers
      {
        if i < |init| {
          var j :| 0 <= j < |m'.headers| && m'.headers[j] == HeaderFor(init[i]).value;
          assert m.headers[j] == HeaderFor(rs[i]).value;
        } else {
          assert m.headers[|m'.headers|] == HeaderFor(r).value;
        }
      }
    }
  }
}
