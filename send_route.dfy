/** The admin newsletter broadcast endpoint, and the multipart form it reads. The mailer is the
    parameter `mailer`, which receives the one mail request and answers with a result. */
module SendRoute {
  import opened Wrappers
  import opened Db

  /** An uploaded file: its name and its bytes. */
  datatype File = File(name: string, bytes: seq<bv8>)

  /** One `FormData.append`: a text field or a file. */
  datatype FormEntry = TextEntry(name: string, text: string) | FileEntry(name: string, file: File)

  /** No entry before position `k` is named `name`. */
  predicate NoneBefore(form: seq<FormEntry>, name: string, k: int)
    requires 0 <= k <= |form|
  {
    forall j :: 0 <= j < k ==> form[j].name != name
  }

  /** `formData.get(name)` as a string: the first entry under `name`, or null when there is none.
      A file placed under a text name is not modelled and reads as null. */
  function FormGet(form: seq<FormEntry>, name: string): (r: Option<string>)
    ensures r.Some? ==> TextEntry(name, r.value) in form
    ensures (forall k :: 0 <= k < |form| ==> form[k].name != name) ==> r.None?
    ensures forall k :: 0 <= k < |form| && form[k].name == name && NoneBefore(form, name, k) ==>
              r == (if form[k].TextEntry? then Some(form[k].text) else None)
  {
    if form == [] then None
    else if form[0].name == name then (if form[0].TextEntry? then Some(form[0].text) else None)
    else FormGet(form[1..], name)
  }

  /** `formData.getAll(name)` after the route's `f.size > 0` filter: the non-empty files under
      `name`, in order. A text entry has no size, so the filter drops it too. */
  function NonEmptyFiles(form: seq<FormEntry>, name: string): (r: seq<File>)
    ensures |r| <= |form|
    ensures forall f :: f in r <==> FileEntry(name, f) in form && |f.bytes| > 0
  {
    if form == [] then []
    else
      var rest := NonEmptyFiles(form[1..], name);
      assert forall e :: e in form <==> e == form[0] || e in form[1..];
      if form[0].FileEntry? && form[0].name == name && |form[0].file.bytes| > 0 then [form[0].file] + rest else rest
  }

  /** The filter keeps order: the files of a concatenated form are those of its first part,
      followed by those of its second. */
  lemma {:induction false} NonEmptyFilesAppend(a: seq<FormEntry>, b: seq<FormEntry>, name: string)
    ensures NonEmptyFiles(a + b, name) == NonEmptyFiles(a, name) + NonEmptyFiles(b, name)
  {
    if a == [] {
      assert a + b == b;
    } else {
      assert (a + b)[1..] == a[1..] + b;
      NonEmptyFilesAppend(a[1..], b, name);
    }
  }

  /** One entry contributes its file exactly once when it is a non-empty file under `name`, and
      nothing otherwise; with `NonEmptyFilesAppend` this fixes the order and the multiplicity. */
  lemma NonEmptyFilesSingle(e: FormEntry, name: string)
    ensures NonEmptyFiles([e], name) == if e.FileEntry? && e.name == name && |e.file.bytes| > 0 then [e.file] else []
  {
  }

  datatype Attachment = Attachment(filename: string, content: seq<bv8>)

  function AttachmentOf(f: File): Attachment {
    Attachment(f.name, f.bytes)
  }

  /** `files.map(...)`: one attachment per file, in the same order. */
  function AttachmentsOf(files: seq<File>): (r: seq<Attachment>)
    ensures |r| == |files| && forall i :: 0 <= i < |files| ==> r[i] == AttachmentOf(files[i])
  {
    seq(|files|, i requires 0 <= i < |files| => AttachmentOf(files[i]))
  }

  datatype MailRequest = MailRequest(to: seq<string>, subject: string, text: string, attachments: seq<Attachment>)

  datatype MailResult = MailResult(ok: bool, message: string)

  datatype SendResponse =
    | Delivered(sent: nat, message: string)   // { ok: true, sent, message }
    | Undelivered(status: int, error: string)

  const MissingFields := Undelivered(400, "Subject and message are required.")
  const NoSubscribers := Undelivered(400, "No subscribers found.")

  /** The response, and the mail request handed to the mailer if one was. */
  datatype Outcome = Outcome(response: SendResponse, mail: Option<MailRequest>)

  /** The mail request the route builds once the checks pass. */
  function MailOf(form: seq<FormEntry>, subscribers: seq<string>): MailRequest
    requires FormGet(form, "subject").Some? && FormGet(form, "message").Some?
  {
    var files := NonEmptyFiles(form, "attachments");
    MailRequest(subscribers, FormGet(form, "subject").value, FormGet(form, "message").value, AttachmentsOf(files))
  }

  /** `POST /api/admin/newsletter/send` given the subscriber emails in store order. */
  function Send(form: seq<FormEntry>, subscribers: seq<string>, mailer: MailRequest -> MailResult): Outcome {
    var subject := FormGet(form, "subject");
    var message := FormGet(form, "message");
    if !Truthy(subject) || !Truthy(message) then Outcome(MissingFields, None)
    else if |subscribers| == 0 then Outcome(NoSubscribers, None)
    else
      var mail := MailOf(form, subscribers);
      var result := mailer(mail);
      if !result.ok then Outcome(Undelivered(500, result.message), Some(mail))
      else Outcome(Delivered(|subscribers|, result.message), Some(mail))
  }

  /** The checks come in order and neither calls the mailer; past them the mailer is called once,
      addressed to every subscriber, with the subject and message as given and one attachment per
      non-empty uploaded file; its failure becomes a 500 carrying its message, its success a
      count of the recipients and its message. */
  lemma SendOutcomes(form: seq<FormEntry>, subscribers: seq<string>, mailer: MailRequest -> MailResult)
    ensures var subject := FormGet(form, "subject");
            var message := FormGet(form, "message");
            var o := Send(form, subscribers, mailer);
            && (!Truthy(subject) || !Truthy(message) ==> o == Outcome(MissingFields, None))
            && (Truthy(subject) && Truthy(message) && subscribers == [] ==> o == Outcome(NoSubscribers, None))
            && (o.mail.Some? <==> Truthy(subject) && Truthy(message) && subscribers != [])
            && (o.mail.Some? ==>
                  && o.mail.value.to == subscribers
                  && o.mail.value.subject == subject.value
                  && o.mail.value.text == message.value
                  && o.mail.value.attachments == AttachmentsOf(NonEmptyFiles(form, "attachments"))
                  && |o.mail.value.attachments| <= |form|
                  && (forall a :: a in o.mail.value.attachments <==>
                        exists f :: FileEntry("attachments", f) in form && |f.bytes| > 0 && a == AttachmentOf(f))
                  && o.response == (if mailer(o.mail.value).ok
                                    then Delivered(|subscribers|, mailer(o.mail.value).message)
                                    else Undelivered(500, mailer(o.mail.value).message)))
  {
    var o := Send(form, subscribers, mailer);
    if o.mail.Some? {
      var files := NonEmptyFiles(form, "attachments");
      var atts := o.mail.value.attachments;
      forall a ensures a in atts <==> exists f :: FileEntry("attachments", f) in form && |f.bytes| > 0 && a == AttachmentOf(f) {
        if a in atts {
          var i :| 0 <= i < |atts| && atts[i] == a;
          assert files[i] in files;
        }
        if exists f :: FileEntry("attachments", f) in form && |f.bytes| > 0 && a == AttachmentOf(f) {
          var f :| FileEntry("attachments", f) in form && |f.bytes| > 0 && a == AttachmentOf(f);
          var i :| 0 <= i < |files| && files[i] == f;
          assert atts[i] == a;
        }
      }
    }
  }

  /** A success reports exactly the number of subscribers mailed. */
  lemma DeliveredCountsRecipients(form: seq<FormEntry>, subscribers: seq<string>, mailer: MailRequest -> MailResult)
    requires Send(form, subscribers, mailer).response.Delivered?
    ensures Send(form, subscribers, mailer).response.sent == |Send(form, subscribers, mailer).mail.value.to| > 0
  {
  }

  method Post(db: Database, form: seq<FormEntry>, mailer: MailRequest -> MailResult) returns (response: SendResponse, mail: Option<MailRequest>)
    ensures Outcome(response, mail) == Send(form, db.subscribers, mailer)
  {
    var subject := FormGet(form, "subject");
    var message := FormGet(form, "message");
    if !Truthy(subject) || !Truthy(message) {
      return MissingFields, None;
    }
    var subscribers := db.subscribers;
    if |subscribers| == 0 {
      return NoSubscribers, None;
    }
    var request := MailOf(form, subscribers);
    var result := mailer(request);
    mail := Some(request);
    if !result.ok {
      response := Undelivered(500, result.message);
    } else {
      response := Delivered(|subscribers|, result.message);
    }
  }
}
