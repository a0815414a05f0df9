/**
  The `$msg` command: `$msg <phone> <text...>` sends the text to one contact.

  The phone argument becomes a WhatsApp user id (a JID). The network is an
  oracle: for a JID it says whether the contact is missing, the message was
  delivered, or the lookup or the send raised an error with some message.
 */
module Msg {
  import opened Wrappers
  import opened JsString
  import opened Command

  const USER_SUFFIX := "@s.whatsapp.net"
  const USAGE := "\U{274C} Usage: $msg [phone-number] [message]\nExample: $msg +2349034138536 Hello there!"

  /** The characters `/[^\d+]/g` keeps: ASCII digits and '+'. */
  predicate IsDialChar(c: char) {
    IsDigit(c) || c == '+'
  }

  /** `phone.replace(/[^\d+]/g, '')` */
  function KeepDialChars(s: string): (r: string)
    ensures |r| <= |s|
    ensures forall i :: 0 <= i < |r| ==> IsDialChar(r[i])
  {
    if s == [] then []
    else (if IsDialChar(s[0]) then [s[0]] else []) + KeepDialChars(s[1..])
  }

  /** Cleaning works piecewise: the cleaned whole is the cleaned parts, in order. */
  lemma {:induction false} KeepDialAppend(a: string, b: string)
    ensures KeepDialChars(a + b) == KeepDialChars(a) + KeepDialChars(b)
    decreases |a|
  {
    if a != [] {
      var head := if IsDialChar(a[0]) then [a[0]] else [];
      assert (a + b)[0] == a[0];
      assert (a + b)[1..] == a[1..] + b;
      assert KeepDialChars(a + b) == head + KeepDialChars(a[1..] + b);
      assert KeepDialChars(a) == head + KeepDialChars(a[1..]);
      KeepDialAppend(a[1..], b);
    } else {
      assert a + b == b;
    }
  }

  /** Text made only of digits and '+' is left as it is. */
  lemma {:induction false} KeepDialOfDial(s: string)
    requires forall i :: 0 <= i < |s| ==> IsDialChar(s[i])
    ensures KeepDialChars(s) == s
    decreases |s|
  {
    if s != [] {
      KeepDialOfDial(s[1..]);
    }
  }

  /** Text without digits or '+' is cleaned away entirely. */
  lemma {:induction false} KeepDialOfNone(s: string)
    requires forall i :: 0 <= i < |s| ==> !IsDialChar(s[i])
    ensures KeepDialChars(s) == []
    decreases |s|
  {
    if s != [] {
      KeepDialOfNone(s[1..]);
    }
  }

  /**
    The JID for the phone argument: an argument that already contains
    "@s.whatsapp.net" is used as it is; otherwise it is cleaned to digits and
    '+', its first '+' is dropped, and the suffix is appended.
   */
  function Jid(phone: string): (j: string)
    ensures Includes(phone, USER_SUFFIX) ==> j == phone
    ensures !Includes(phone, USER_SUFFIX) ==>
      EndsWith(j, USER_SUFFIX) && forall i :: 0 <= i < |j| - |USER_SUFFIX| ==> IsDialChar(j[i])
  {
    if Includes(phone, USER_SUFFIX) then phone
    else
      var clean := KeepDialChars(phone);
      var local := ReplaceFirst(clean, "+", "");
      DropPlusKeepsDial(clean);
      var j := local + USER_SUFFIX;
      assert j[|j| - |USER_SUFFIX|..] == USER_SUFFIX;
      j
  }

  /** Dropping the first '+' from cleaned text leaves cleaned text. */
  lemma DropPlusKeepsDial(clean: string)
    requires forall i :: 0 <= i < |clean| ==> IsDialChar(clean[i])
    ensures var local := ReplaceFirst(clean, "+", "");
      forall i :: 0 <= i < |local| ==> IsDialChar(local[i])
  {
    match IndexOf(clean, "+")
    case None =>
    case Some(k) =>
      assert ReplaceFirst(clean, "+", "") == clean[..k] + clean[k + 1..];
  }

  /** An occurrence of the suffix puts an '@' in the text. */
  lemma NoAtNoSuffix(s: string)
    requires '@' !in s
    ensures !Includes(s, USER_SUFFIX)
  {
    forall k: nat ensures !MatchAt(s, USER_SUFFIX, k) {
      if k + |USER_SUFFIX| <= |s| {
        assert s[k..k + |USER_SUFFIX|][0] == s[k];
      }
    }
  }

  /** A JID is its own JID, so feeding the result back changes nothing. */
  lemma JidStable(phone: string)
    ensures Jid(Jid(phone)) == Jid(phone)
  {
    var j := Jid(phone);
    if !Includes(phone, USER_SUFFIX) {
      EndsWithIncludes(j, USER_SUFFIX);
    }
  }

  /** A number in international form, with or without '+', is its digits followed by the suffix. */
  lemma JidOfNumber(digits: string)
    requires AllDigits(digits)
    ensures Jid(digits) == digits + USER_SUFFIX
    ensures Jid("+" + digits) == digits + USER_SUFFIX
  {
    JidOfDigits(digits);
    JidOfPlusDigits(digits);
  }

  lemma JidOfDigits(digits: string)
    requires AllDigits(digits)
    ensures Jid(digits) == digits + USER_SUFFIX
  {
    assert '@' !in digits by {
      assert forall i :: 0 <= i < |digits| ==> IsDigit(digits[i]);
    }
    NoAtNoSuffix(digits);
    assert forall i :: 0 <= i < |digits| ==> IsDialChar(digits[i]);
    KeepDialOfDial(digits);
    NoPlusInDigits(digits);
  }

  lemma NoPlusInDigits(digits: string)
    requires AllDigits(digits)
    ensures IndexOf(digits, "+").None?
    ensures ReplaceFirst(digits, "+", "") == digits
  {
    forall k: nat ensures !MatchAt(digits, "+", k) {
      if k + 1 <= |digits| {
        assert digits[k..k + 1][0] == digits[k];
      }
    }
  }

  lemma JidOfPlusDigits(digits: string)
    requires AllDigits(digits)
    ensures Jid("+" + digits) == digits + USER_SUFFIX
  {
    var p := "+" + digits;
    PlusDigitsAreDial(digits);
    assert '@' !in p by {
      assert forall i :: 0 <= i < |p| ==> IsDialChar(p[i]);
    }
    NoAtNoSuffix(p);
    KeepDialOfDial(p);
    DropLeadingPlus(digits);
  }

  /** A '+' followed by digits is made of dial characters only. */
  lemma PlusDigitsAreDial(digits: string)
    requires AllDigits(digits)
    ensures forall i :: 0 <= i < |"+" + digits| ==> IsDialChar(("+" + digits)[i])
  {
  }

  lemma DropLeadingPlus(digits: string)
    ensures ReplaceFirst("+" + digits, "+", "") == digits
  {
    var p := "+" + digits;
    assert MatchAt(p, "+", 0);
    assert IndexOf(p, "+") == Some(0);
    assert p[1..] == digits;
  }

  /** Spacing and dashes in the number are cleaned away. */
  lemma JidOfSpacedNumber(a: string, b: string)
    requires AllDigits(a) && AllDigits(b)
    ensures Jid("+" + a + " " + b) == a + b + USER_SUFFIX
  {
    var p := "+" + a + " " + b;
    assert '@' !in p by {
      assert forall i :: 0 <= i < |p| ==> p[i] == '+' || p[i] == ' ' || IsDigit(p[i]);
    }
    NoAtNoSuffix(p);
    CleanSpacedNumber(a, b);
    JidOfNumber(a + b);
  }

  lemma CleanSpacedNumber(a: string, b: string)
    requires AllDigits(a) && AllDigits(b)
    ensures KeepDialChars("+" + a + " " + b) == "+" + (a + b)
  {
    var front, back := "+" + a, " " + b;
    calc {
      KeepDialChars("+" + a + " " + b);
      { assert "+" + a + " " + b == front + back; }
      KeepDialChars(front + back);
      { KeepDialAppend(front, back); }
      KeepDialChars(front) + KeepDialChars(back);
      { CleanSpaceThen(b); PlusDigitsAreDial(a); KeepDialOfDial(front); }
      front + b;
      "+" + (a + b);
    }
  }

  lemma CleanSpaceThen(b: string)
    requires AllDigits(b)
    ensures KeepDialChars(" " + b) == b
  {
    KeepDialAppend(" ", b);
    assert KeepDialChars(" ") == [] by {
      assert " "[1..] == [];
    }
    KeepDialOfDial(b);
  }

  /** Nothing checks the number: an argument with no digits yields the bare suffix. */
  lemma NoDigitsBareSuffix(phone: string)
    requires forall i :: 0 <= i < |phone| ==> !IsDialChar(phone[i]) && phone[i] != '@'
    ensures Jid(phone) == USER_SUFFIX
  {
    NoAtNoSuffix(phone);
    KeepDialOfNone(phone);
  }

  datatype Delivery = Missing | Delivered | Failed(message: string)

  /** What the socket does for a JID. */
  type Network = string -> Delivery

  datatype MsgReply =
    | Usage
    | Attempt(jid: string, text: string, result: Delivery)

  /** `$msg <phone> <text...>` */
  function Run(args: seq<string>, net: Network): (rep: MsgReply)
    ensures |args| < 2 <==> rep.Usage?
    ensures rep.Attempt? ==>
      rep.jid == Jid(args[0]) && rep.text == Join(args[1..], " ") && rep.result == net(rep.jid)
  {
    if |args| < 2 then Usage
    else
      var jid := Jid(args[0]);
      Attempt(jid, Join(args[1..], " "), net(jid))
  }

  /** The message sent is the words after the number, each kept as typed. */
  lemma TextRecoversWords(args: seq<string>, net: Network)
    requires |args| >= 2 && Words(args[1..])
    ensures SplitWs(Run(args, net).text) == args[1..]
  {
    SplitJoin(args[1..]);
  }

  /** The replies, in order: a confirmation naming the JID before the attempt, then its result. */
  function Replies(rep: MsgReply): (rs: seq<string>)
    ensures rep.Usage? <==> rs == [USAGE]
    ensures rep.Attempt? ==> |rs| == 2 && Includes(rs[0], rep.jid)
  {
    match rep
    case Usage => [USAGE]
    case Attempt(jid, text, result) =>
      IncludesAt(jid, jid, 0);
      IncludesInfix("\U{1F4E4} Sending message to ", jid, "...", jid);
      ["\U{1F4E4} Sending message to " + jid + "...", ResultText(jid, text, result)]
  }

  /** The final reply for an attempt: a tick for a delivered message, a cross for anything else. */
  function ResultText(jid: string, text: string, result: Delivery): (t: string)
    ensures t != [] && (t[0] == '\U{2705}' <==> result.Delivered?)
  {
    match result
    case Missing => "\U{274C} Contact " + jid + " not found on WhatsApp."
    case Delivered => "\U{2705} Message sent successfully to " + jid + "\n\U{1F4DD} Content: \"" + text + "\""
    case Failed(m) =>
      if Includes(m, "not-authorized") then
        "\U{274C} Cannot message " + jid + ". The user may have privacy settings enabled."
      else "\U{274C} Error sending message: " + m
  }

  /** The `$msg` descriptor: super-users only, private chats only, aliases message and send, 10 s cooldown. */
  const MSG: Command := CreateCommand("msg", Options(
    Some(["message", "send"]),
    Some(10),
    Some("Send message to specific contact"),
    Some([SUPER_USER]),
    Some("administration"),
    Some("private"),
    Some("$msg +2349034138536 Hello! How are you?")))

  /** Only a super-user in a private chat gets past the execute wrapper. */
  lemma MsgGate(chatId: string, sender: string, tier: string, now: int)
    ensures Check(MSG, chatId, sender, tier, now).Admitted? <==> tier == SUPER_USER && !IsGroupChat(chatId)
  {
  }
}
