/** The student's request form: `handleSubmit` checks the session, looks the
    component up by name, inserts the request in "Requested", then notifies
    every mentor, one attempt each, swallowing each failure. The store's
    answers and the mail route's responses are inputs. */
module RequestForm {
  import opened Strings
  import opened Values
  import opened Seqs
  import opened Records
  import opened Lifecycle
  import opened EmailService

  /** The signed-in user from the auth context. */
  datatype AuthUser = AuthUser(id: string)

  /** A call `handleSubmit` makes to the store. */
  datatype StoreCall =
    | SelectComponentByName(name: string)
    | SelectUser(id: string)
    | Insert(row: NewRequest)
    | SelectMentors

  const SubmittedMessage: string := "Request submitted successfully! Mentors have been notified."

  function NamedAs(name: string): Component -> bool {
    (c: Component) => c.name == name
  }

  function WithId(id: string): User -> bool {
    (u: User) => u.id == id
  }

  /** `.select("id").eq("name", name).single()`: the id of the only
      component with that name; `null` when there is none or more than one. */
  function SingleComponent(components: seq<Component>, name: string): (r: Option<string>)
    ensures r.Some? <==> Count(components, NamedAs(name)) == 1
    ensures r.Some? ==> exists c :: c in components && c.name == name && c.id == r.value
  {
    var matches := Filter(components, NamedAs(name));
    if |matches| == 1 then Some(matches[0].id) else None
  }

  /** `.select("name, email").eq("id", id).single()`. */
  function SingleUser(users: seq<User>, id: string): (r: Option<User>)
    ensures r.Some? <==> Count(users, WithId(id)) == 1
    ensures r.Some? ==> r.value in users && r.value.id == id
  {
    var matches := Filter(users, WithId(id));
    if |matches| == 1 then Some(matches[0]) else None
  }

  /** The data of each mentor notification. */
  function MentorNoticeData(userData: Option<User>, componentName: string, quantity: string, reason: string): (d: EmailData)
    ensures d.studentName.Some? && d.studentEmail.Some?
    ensures userData.Some? && userData.value.name != "" ==> d.studentName == Some(userData.value.name)
    ensures userData.Some? && userData.value.email != "" ==> d.studentEmail == Some(userData.value.email)
    ensures userData.Some? && userData.value.name == "" ==> d.studentName == Some("Unknown")
    ensures userData.Some? && userData.value.email == "" ==> d.studentEmail == Some("Unknown")
    ensures userData.None? ==> d.studentName == Some("Unknown") && d.studentEmail == Some("Unknown")
    ensures d.componentName == Some(componentName) && d.quantity == Some(ParseInt(quantity)) && d.reason == Some(reason)
    ensures d.mentorName == None
  {
    EmailData(
      Some(OrElse(if userData.Some? then Some(userData.value.name) else None, "Unknown")),
      Some(OrElse(if userData.Some? then Some(userData.value.email) else None, "Unknown")),
      Some(componentName),
      Some(ParseInt(quantity)),
      Some(reason),
      None)
  }

  /** The call made for one mentor. */
  function MentorEmail(to: string, data: EmailData): Notification {
    Notification(to, "request", data)
  }

  /** What one mentor's notification posts: the "request" template, which
      shows the student, the component, the quantity and the reason. */
  lemma MentorEmailContent(to: string, data: EmailData)
    ensures var n := MentorEmail(to, data);
      var r := BuildEmail(n.to, n.emailType, n.data);
      r.Ok? && r.value.to == to && r.value.subject == RequestSubject &&
      Contains(r.value.html, ShowText(data.studentName)) &&
      Contains(r.value.html, ShowText(data.componentName)) &&
      Contains(r.value.html, ShowNumber(data.quantity)) &&
      Contains(r.value.html, ShowText(data.reason))
  {
    RequestBodyFields(data);
  }

  /** One notification per mentor, in list order. */
  function MentorEmails(mentors: seq<string>, data: EmailData): (ns: seq<Notification>)
    ensures |ns| == |mentors|
    ensures forall i :: 0 <= i < |mentors| ==> ns[i] == MentorEmail(mentors[i], data)
  {
    seq(|mentors|, i requires 0 <= i < |mentors| => MentorEmail(mentors[i], data))
  }

  /** How many of the attempts to the first `n` mentors threw (each one is
      only logged). */
  function FailedAttempts(mentors: seq<string>, data: EmailData, responses: nat -> Response, n: nat): (k: nat)
    requires n <= |mentors|
    ensures k <= n
  {
    if n == 0 then 0
    else
      var failed := SendEmailNotification(mentors[n - 1], "request", data, responses(n - 1)).Err?;
      FailedAttempts(mentors, data, responses, n - 1) + if failed then 1 else 0
  }

  /** The loop over the mentors: one attempt each, in order, with the
      failure of one attempt caught inside the loop so the next still runs.
      `responses(i)` is how the mail route answers the attempt to the i-th
      mentor. */
  method NotifyMentors(mentors: seq<string>, data: EmailData, responses: nat -> Response)
    returns (emails: seq<Notification>, failures: nat)
    ensures emails == MentorEmails(mentors, data)
    ensures failures == FailedAttempts(mentors, data, responses, |mentors|)
  {
    emails, failures := [], 0;
    var i := 0;
    while i < |mentors|
      invariant 0 <= i <= |mentors|
      invariant emails == MentorEmails(mentors[..i], data)
      invariant failures == FailedAttempts(mentors, data, responses, i)
    {
      var to := mentors[i];
      emails := emails + [MentorEmail(to, data)];
      var sent := SendEmailNotification(to, "request", data, responses(i));
      if sent.Err? {
        failures := failures + 1;
      }
      i := i + 1;
      assert mentors[..i] == mentors[..i - 1] + [to];
    }
    assert mentors[..i] == mentors;
  }

  class View {
    var componentName: string
    var quantity: string
    var reason: string
    var dateNeeded: string
    var returnDate: string
    var loading: bool
    var message: string

    constructor ()
      ensures componentName == "" && quantity == "" && reason == "" && dateNeeded == "" && returnDate == ""
      ensures !loading && message == ""
    {
      componentName, quantity, reason, dateNeeded, returnDate := "", "", "", "", "";
      loading, message := false, "";
    }

    /** All five fields are unchanged. */
    twostate predicate FieldsKept()
      reads this
    {
      componentName == old(componentName) && quantity == old(quantity) && reason == old(reason) &&
      dateNeeded == old(dateNeeded) && returnDate == old(returnDate)
    }

    /** The part of `handleSubmit` after the component was found: read the
        student's name and e-mail, insert the request, then notify the
        mentors and clear the form. An insert error is caught: its message is
        shown and the form is kept. */
    method InsertAndNotify(userId: string, componentId: string, users: seq<User>,
                           insertError: Option<Thrown>, mentors: Option<seq<string>>, responses: nat -> Response)
      returns (calls: seq<StoreCall>, emails: seq<Notification>, failures: nat)
      modifies this
      ensures loading == old(loading)
      ensures |calls| >= 2 &&
        calls[..2] == [SelectUser(userId),
                       Insert(NewRequest(userId, componentId, ParseInt(old(quantity)), old(reason), Requested, old(returnDate)))]
      ensures insertError.Some? ==>
        |calls| == 2 && emails == [] && failures == 0 &&
        message == CaughtMessage(insertError.value, "Error submitting request") && FieldsKept()
      ensures insertError.None? ==>
        failures == FailedAttempts(RowsOf(mentors),
                                   MentorNoticeData(SingleUser(users, userId), old(componentName), old(quantity), old(reason)),
                                   responses, |RowsOf(mentors)|)
      ensures insertError.None? ==>
        calls == calls[..2] + [SelectMentors] &&
        emails == MentorEmails(RowsOf(mentors),
                               MentorNoticeData(SingleUser(users, userId), old(componentName), old(quantity), old(reason))) &&
        message == SubmittedMessage &&
        componentName == "" && quantity == "" && reason == "" && dateNeeded == "" && returnDate == ""
    {
      emails, failures := [], 0;
      var userData := SingleUser(users, userId);
      var row := NewRequest(userId, componentId, ParseInt(quantity), reason, Requested, returnDate);
      calls := [SelectUser(userId), Insert(row)];
      if insertError.Some? {
        message := CaughtMessage(insertError.value, "Error submitting request");
      } else {
        calls := calls + [SelectMentors];
        if mentors.Some? && |mentors.value| > 0 {
          var data := MentorNoticeData(userData, componentName, quantity, reason);
          emails, failures := NotifyMentors(mentors.value, data, responses);
        }
        message := SubmittedMessage;
        componentName, quantity, reason, dateNeeded, returnDate := "", "", "", "", "";
      }
    }

    /** `handleSubmit`. `user` is the session, `components` and `users` the
        tables the two single-row lookups read, `insertError` what the insert
        returns, `mentors` the e-mails the mentor query returns (`None` for
        `null`), `responses` the mail route's answers. It yields the store
        calls and the notifications, in the order they are made, and how many
        of the notifications threw (each is caught and only logged). */
    method HandleSubmit(user: Option<AuthUser>, components: seq<Component>, users: seq<User>,
                        insertError: Option<Thrown>, mentors: Option<seq<string>>, responses: nat -> Response)
      returns (calls: seq<StoreCall>, emails: seq<Notification>, failures: nat)
      modifies this
      ensures !loading
      // only mails that were attempted can fail, and a failure is only counted
      ensures !(user.Some? && SingleComponent(components, old(componentName)).Some? && insertError.None?) ==> failures == 0
      ensures user.Some? && SingleComponent(components, old(componentName)).Some? && insertError.None? ==>
        failures == FailedAttempts(RowsOf(mentors),
                                   MentorNoticeData(SingleUser(users, user.value.id), old(componentName), old(quantity), old(reason)),
                                   responses, |RowsOf(mentors)|)
      // no session: nothing is looked up
      ensures user.None? ==>
        calls == [] && emails == [] && message == "User not authenticated" && FieldsKept()
      // no single component with the name: no insert, no e-mail
      ensures user.Some? && SingleComponent(components, old(componentName)).None? ==>
        calls == [SelectComponentByName(old(componentName))] && emails == [] &&
        message == "Component not found" && FieldsKept()
      // otherwise the request is inserted in "Requested" for this student and component
      ensures user.Some? && SingleComponent(components, old(componentName)).Some? ==>
        |calls| >= 3 &&
        calls[..3] == [SelectComponentByName(old(componentName)), SelectUser(user.value.id),
                       Insert(NewRequest(user.value.id, SingleComponent(components, old(componentName)).value,
                                         ParseInt(old(quantity)), old(reason), Requested, old(returnDate)))]
      // an insert error stops before any mentor is notified
      ensures user.Some? && SingleComponent(components, old(componentName)).Some? && insertError.Some? ==>
        |calls| == 3 && emails == [] &&
        message == CaughtMessage(insertError.value, "Error submitting request") && FieldsKept()
      // success: every mentor gets one notification in order, whatever the responses, and the form is cleared
      ensures user.Some? && SingleComponent(components, old(componentName)).Some? && insertError.None? ==>
        calls == calls[..3] + [SelectMentors] &&
        emails == MentorEmails(RowsOf(mentors),
                               MentorNoticeData(SingleUser(users, user.value.id), old(componentName), old(quantity), old(reason))) &&
        message == SubmittedMessage &&
        componentName == "" && quantity == "" && reason == "" && dateNeeded == "" && returnDate == ""
    {
      loading := true;
      message := "";
      calls, emails, failures := [], [], 0;
      if user.None? {
        message := "User not authenticated";
      } else {
        calls := [SelectComponentByName(componentName)];
        var component := SingleComponent(components, componentName);
        if component.None? {
          message := "Component not found";
        } else {
          var rest;
          rest, emails, failures := InsertAndNotify(user.value.id, component.value, users, insertError, mentors, responses);
          calls := calls + rest;
          assert calls[1..3] == rest[..2];
        }
      }
      loading := false;
    }
  }
}
