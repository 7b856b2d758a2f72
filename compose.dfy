/** The admin newsletter composer: a form whose status moves idle -> sending -> success or error,
    with any edit of the subject or message returning it to idle. The request's round trip is
    split in two: `BeginSubmit` builds the form data the page posts, and `FinishSubmit` takes the
    JSON reply the page receives. */
module Compose {
  import opened Wrappers
  import opened Text
  import opened SendRoute

  datatype Status = Idle | Sending | Success | Failure

  /** The reply as the page reads it: `res.ok` and the `message`, `sent` and `error` fields. */
  datatype Reply = Reply(ok: bool, message: Option<string>, sent: Option<nat>, error: Option<string>)

  /** The JSON reply the send endpoint gives for each of its responses. */
  function ReplyOf(r: SendResponse): Reply {
    match r
    case Delivered(n, m) => Reply(true, Some(m), Some(n), None)
    case Undelivered(status, e) => Reply(200 <= status < 300, None, None, Some(e))
  }

  /** `${data.sent}`: a missing count prints as "undefined". */
  function CountText(sent: Option<nat>): string {
    if sent.Some? then NatToString(sent.value) else "undefined"
  }

  /** `data.message || \`Email sent to ${data.sent} subscriber${data.sent !== 1 ? "s" : ""}.\``. */
  function SuccessMessage(reply: Reply): (r: string)
    ensures r != ""
  {
    OrElse(reply.message, "Email sent to " + CountText(reply.sent) + " subscriber" +
                          (if reply.sent == Some(1) then "" else "s") + ".")
  }

  /** `data.error || "Failed to send email."`. */
  function FailureMessage(reply: Reply): (r: string)
    ensures r != ""
  {
    OrElse(reply.error, "Failed to send email.")
  }

  /** The form data the page posts: subject, message, then every chosen file as "attachments". */
  function FormEntries(subject: string, message: string, files: seq<File>): seq<FormEntry> {
    [TextEntry("subject", subject), TextEntry("message", message)]
      + seq(|files|, i requires 0 <= i < |files| => FileEntry("attachments", files[i]))
  }

  class Composer {
    const subscriberCount: nat
    var subject: string
    var message: string
    var files: seq<File>      // the chosen FileList; null is the empty list
    var status: Status
    var resultMsg: string

    /** A success or an error always has a message to show. */
    predicate Valid()
      reads this
    {
      status == Success || status == Failure ==> resultMsg != ""
    }

    constructor (subscriberCount: nat)
      ensures Valid()
      ensures this.subscriberCount == subscriberCount
      ensures subject == "" && message == "" && files == [] && status == Idle && resultMsg == ""
    {
      this.subscriberCount := subscriberCount;
      subject, message, files, status, resultMsg := "", "", [], Idle, "";
    }

    /** The submit button is disabled while sending and when there is nobody to send to. */
    predicate SubmitDisabled()
      reads this
    {
      status == Sending || subscriberCount == 0
    }

    method EditSubject(value: string)
      requires Valid()
      modifies this
      ensures Valid()
      ensures subject == value && status == Idle
      ensures message == old(message) && files == old(files) && resultMsg == old(resultMsg)
    {
      subject := value;
      status := Idle;
    }

    method EditMessage(value: string)
      requires Valid()
      modifies this
      ensures Valid()
      ensures message == value && status == Idle
      ensures subject == old(subject) && files == old(files) && resultMsg == old(resultMsg)
    {
      message := value;
      status := Idle;
    }

    /** Choosing files leaves the status as it was. */
    method ChooseFiles(chosen: seq<File>)
      requires Valid()
      modifies this
      ensures Valid()
      ensures files == chosen
      ensures subject == old(subject) && message == old(message) && status == old(status) && resultMsg == old(resultMsg)
    {
      files := chosen;
    }

    /** The synchronous half of `handleSubmit`: nothing happens when the subject or the message is
        blank; otherwise the status becomes sending and the form data is built. */
    method BeginSubmit() returns (form: Option<seq<FormEntry>>)
      requires Valid()
      modifies this
      ensures Valid()
      ensures form.None? <==> IsBlank(old(subject)) || IsBlank(old(message))
      ensures form.None? ==> status == old(status)
      ensures form.Some? ==> form.value == FormEntries(subject, message, files) && status == Sending
      ensures form.Some? ==> SubmitDisabled()
      ensures subject == old(subject) && message == old(message) && files == old(files) && resultMsg == old(resultMsg)
    {
      TrimEmptyIffBlank(subject);
      TrimEmptyIffBlank(message);
      if Trim(subject) == "" || Trim(message) == "" {
        return None;
      }
      status := Sending;
      var entries := [TextEntry("subject", subject), TextEntry("message", message)];
      for i := 0 to |files|
        invariant entries == FormEntries(subject, message, files[..i])
      {
        entries := entries + [FileEntry("attachments", files[i])];
        assert files[..i + 1] == files[..i] + [files[i]];
      }
      assert files[..|files|] == files;
      form := Some(entries);
    }

    /** The half of `handleSubmit` after the reply: a success clears the form and shows the
        server's message or a count of recipients; an error keeps the form and shows the server's
        error or a fallback. */
    method FinishSubmit(reply: Reply)
      requires Valid()
      modifies this
      ensures Valid()
      ensures reply.ok ==> status == Success && resultMsg == SuccessMessage(reply) && subject == "" && message == "" && files == []
      ensures !reply.ok ==> status == Failure && resultMsg == FailureMessage(reply)
      ensures !reply.ok ==> subject == old(subject) && message == old(message) && files == old(files)
    {
      if reply.ok {
        status := Success;
        resultMsg := SuccessMessage(reply);
        subject, message, files := "", "", [];
      } else {
        status := Failure;
        resultMsg := FailureMessage(reply);
      }
    }
  }

  /** A non-empty server message is shown as it is. Without one (the field missing or empty) the
      text counts the recipients, with "subscriber" in the singular exactly for a count of one,
      and a missing count prints as "undefined". */
  lemma SuccessMessageCounts(reply: Reply)
    ensures Truthy(reply.message) ==> SuccessMessage(reply) == reply.message.value
    ensures !Truthy(reply.message) && reply.sent.Some? ==>
              SuccessMessage(reply) == "Email sent to " + NatToString(reply.sent.value) +
                                       (if reply.sent.value == 1 then " subscriber." else " subscribers.")
    ensures !Truthy(reply.message) && reply.sent == Some(1) ==>
              SuccessMessage(reply) == "Email sent to 1 subscriber."
    ensures !Truthy(reply.message) && reply.sent.None? ==>
              SuccessMessage(reply) == "Email sent to undefined subscribers."
  {
    assert NatToString(1) == "1";
  }

  /** The endpoint reads back from the composer's form data exactly the subject, the message and
      the non-empty files the composer held. */
  lemma {:induction false} FormRoundTrip(subject: string, message: string, files: seq<File>)
    ensures FormGet(FormEntries(subject, message, files), "subject") == Some(subject)
    ensures FormGet(FormEntries(subject, message, files), "message") == Some(message)
    ensures NonEmptyFiles(FormEntries(subject, message, files), "attachments") == NonEmptyOf(files)
  {
    var form := FormEntries(subject, message, files);
    assert form[1..][1..] == seq(|files|, i requires 0 <= i < |files| => FileEntry("attachments", files[i]));
    FileEntriesRoundTrip(files);
  }

  /** The files with at least one byte, in order. */
  function NonEmptyOf(files: seq<File>): (r: seq<File>)
    ensures forall f :: f in r <==> f in files && |f.bytes| > 0
  {
    if files == [] then []
    else if |files[0].bytes| > 0 then [files[0]] + NonEmptyOf(files[1..])
    else NonEmptyOf(files[1..])
  }

  lemma {:induction false} FileEntriesRoundTrip(files: seq<File>)
    ensures NonEmptyFiles(seq(|files|, i requires 0 <= i < |files| => FileEntry("attachments", files[i])), "attachments")
              == NonEmptyOf(files)
  {
    var entries := seq(|files|, i requires 0 <= i < |files| => FileEntry("attachments", files[i]));
    if files != [] {
      assert entries[1..] == seq(|files[1..]|, i requires 0 <= i < |files[1..]| => FileEntry("attachments", files[1..][i]));
      FileEntriesRoundTrip(files[1..]);
    }
  }

  /** A submission that gets past the blank check and reaches subscribers mails them the
      composer's subject and message with one attachment per non-empty chosen file, and the page
      then shows success exactly when the mailer succeeded. */
  lemma SubmitThenSend(subject: string, message: string, files: seq<File>, subscribers: seq<string>,
                       mailer: MailRequest -> MailResult)
    requires !IsBlank(subject) && !IsBlank(message) && subscribers != []
    ensures var o := Send(FormEntries(subject, message, files), subscribers, mailer);
            && o.mail.Some?
            && o.mail.value.to == subscribers && o.mail.value.subject == subject && o.mail.value.text == message
            && |o.mail.value.attachments| == |NonEmptyOf(files)|
            && (forall i :: 0 <= i < |NonEmptyOf(files)| ==>
                  o.mail.value.attachments[i] == Attachment(NonEmptyOf(files)[i].name, NonEmptyOf(files)[i].bytes))
            && (ReplyOf(o.response).ok <==> mailer(o.mail.value).ok)
            && (ReplyOf(o.response).ok ==>
                  SuccessMessage(ReplyOf(o.response)) ==
                    if mailer(o.mail.value).message != "" then mailer(o.mail.value).message
                    else "Email sent to " + NatToString(|subscribers|) + " subscriber" + (if |subscribers| == 1 then "" else "s") + ".")
            && (!ReplyOf(o.response).ok ==>
                  FailureMessage(ReplyOf(o.response)) ==
                    if mailer(o.mail.value).message != "" then mailer(o.mail.value).message else "Failed to send email.")
  {
    FormRoundTrip(subject, message, files);
  }

  /** The endpoint only tests the subject and message for emptiness: a subject of white space
      alone passes it and is mailed as it is, so only the composer's trimmed check stops it. */
  lemma BlankSubjectPassesServer(subject: string, message: string, files: seq<File>, subscribers: seq<string>,
                                 mailer: MailRequest -> MailResult)
    requires subject != "" && IsBlank(subject) && message != "" && subscribers != []
    ensures var o := Send(FormEntries(subject, message, files), subscribers, mailer);
            o.mail.Some? && o.mail.value.subject == subject
  {
    FormRoundTrip(subject, message, files);
  }
}
