/** `sendEmailNotification`: pick the template for the notification type,
    fill it from the data, post it to the mail route, and turn a failed post
    into a thrown error. The post itself is abstract: its response is an
    input. */
module EmailService {
  import opened Strings
  import opened Values

  /** The optional fields a notification can carry; an absent field is
      `undefined`. */
  datatype EmailData = EmailData(
    studentName: Option<string>,
    studentEmail: Option<string>,
    componentName: Option<string>,
    quantity: Option<Number>,
    reason: Option<string>,
    mentorName: Option<string>)

  /** The four body builders of the template table. */
  datatype Body = RequestBody | ApprovedBody | RejectedBody | ReturnedBody

  /** An entry of the template table: a fixed subject and a body builder. */
  datatype Template = Template(subject: string, body: Body)

  /** A call `sendEmailNotification(to, emailType, data)`: what a page asks
      the service to send. */
  datatype Notification = Notification(to: string, emailType: string, data: EmailData)

  /** The JSON body posted to the mail route. */
  datatype EmailRequest = EmailRequest(to: string, subject: string, html: string, emailType: string)

  /** What the post to the mail route produced: `fetch` rejected, or a
      response with its `ok` flag and the outcome of reading its JSON. */
  datatype Response = FetchRejected(reason: Thrown) | Replied(ok: bool, body: Result<string, Thrown>)

  /** How `${...}` shows an optional text. */
  function ShowText(v: Option<string>): string {
    match v
    case None => "undefined"
    case Some(s) => s
  }

  /** How `${...}` shows an optional number. */
  function ShowNumber(v: Option<Number>): string {
    match v
    case None => "undefined"
    case Some(x) => NumberToString(x)
  }

  /** The literal pieces of the "request" body. */
  const RequestParts: seq<string> := [
    "\n        <h2>New Component Request</h2>\n        <p>A new component request has been submitted:</p>\n        <ul>\n          <li><strong>Student:</strong> ",
    "</li>\n          <li><strong>Component:</strong> ",
    "</li>\n          <li><strong>Quantity:</strong> ",
    "</li>\n          <li><strong>Reason:</strong> ",
    "</li>\n        </ul>\n        <p>Please review and approve or reject the request in the dashboard.</p>\n      "]

  function RequestHtml(d: EmailData): string {
    Fill(RequestParts, [ShowText(d.studentName), ShowText(d.componentName), ShowNumber(d.quantity), ShowText(d.reason)])
  }

  /** The literal pieces of the "approved" body. */
  const ApprovedParts: seq<string> := [
    "\n        <h2>Request Approved</h2>\n        <p>Great news! Your component request has been approved by ",
    ".</p>\n        <ul>\n          <li><strong>Component:</strong> ",
    "</li>\n          <li><strong>Quantity:</strong> ",
    "</li>\n        </ul>\n        <p>Please pick up your component from the lab.</p>\n      "]

  function ApprovedHtml(d: EmailData): string {
    Fill(ApprovedParts, [ShowText(d.mentorName), ShowText(d.componentName), ShowNumber(d.quantity)])
  }

  /** The literal pieces of the "rejected" body. */
  const RejectedParts: seq<string> := [
    "\n        <h2>Request Rejected</h2>\n        <p>Unfortunately, your component request has been rejected by ",
    ".</p>\n        <ul>\n          <li><strong>Component:</strong> ",
    "</li>\n          <li><strong>Quantity:</strong> ",
    "</li>\n        </ul>\n        <p>Please contact the mentor for more information.</p>\n      "]

  function RejectedHtml(d: EmailData): string {
    Fill(RejectedParts, [ShowText(d.mentorName), ShowText(d.componentName), ShowNumber(d.quantity)])
  }

  /** The literal pieces of the "returned" body. */
  const ReturnedParts: seq<string> := [
    "\n        <h2>Component Return Confirmed</h2>\n        <p>Your component has been marked as returned:</p>\n        <ul>\n          <li><strong>Component:</strong> ",
    "</li>\n          <li><strong>Quantity:</strong> ",
    "</li>\n        </ul>\n        <p>Thank you for returning the component on time.</p>\n      "]

  function ReturnedHtml(d: EmailData): string {
    Fill(ReturnedParts, [ShowText(d.componentName), ShowNumber(d.quantity)])
  }

  /** The four notification types. */
  const EmailTypes: set<string> := {"request", "approved", "rejected", "returned"}

  /** The body a builder makes from the data. */
  function Html(body: Body, d: EmailData): string {
    match body
    case RequestBody => RequestHtml(d)
    case ApprovedBody => ApprovedHtml(d)
    case RejectedBody => RejectedHtml(d)
    case ReturnedBody => ReturnedHtml(d)
  }

  const RequestSubject: string := "New Component Request Received"
  const ApprovedSubject: string := "Your Component Request Has Been Approved"
  const RejectedSubject: string := "Your Component Request Has Been Rejected"
  const ReturnedSubject: string := "Component Return Confirmation"

  /** `emailTemplates[type]`: exactly the four types have a template, each
      with its fixed subject and its own body. */
  function LookupTemplate(emailType: string): (r: Option<Template>)
    ensures r.Some? <==> emailType in EmailTypes
    ensures emailType == "request" ==> r == Some(Template(RequestSubject, RequestBody))
    ensures emailType == "approved" ==> r == Some(Template(ApprovedSubject, ApprovedBody))
    ensures emailType == "rejected" ==> r == Some(Template(RejectedSubject, RejectedBody))
    ensures emailType == "returned" ==> r == Some(Template(ReturnedSubject, ReturnedBody))
  {
    if emailType == "request" then Some(Template(RequestSubject, RequestBody))
    else if emailType == "approved" then Some(Template(ApprovedSubject, ApprovedBody))
    else if emailType == "rejected" then Some(Template(RejectedSubject, RejectedBody))
    else if emailType == "returned" then Some(Template(ReturnedSubject, ReturnedBody))
    else None
  }

  /** The error thrown for a type with no template. */
  function UnknownTypeError(emailType: string): Thrown {
    ErrorObject("Unknown email type: " + emailType)
  }

  /** The message to post: the recipient, the template's subject, its body
      applied to the data, and the type; an unknown type throws instead.
      Nothing here depends on the network. */
  function BuildEmail(to: string, emailType: string, data: EmailData): (r: Result<EmailRequest, Thrown>)
    ensures emailType !in EmailTypes <==> r == Err(UnknownTypeError(emailType))
    ensures r.Ok? <==> emailType in EmailTypes
    ensures r.Ok? ==> r.value.to == to && r.value.emailType == emailType
    ensures r.Ok? ==> r.value.subject == LookupTemplate(emailType).value.subject
    ensures r.Ok? ==> r.value.html == Html(LookupTemplate(emailType).value.body, data)
  {
    match LookupTemplate(emailType)
    case None => Err(UnknownTypeError(emailType))
    case Some(t) => Ok(EmailRequest(to, t.subject, Html(t.body, data), emailType))
  }

  /** The error thrown when the mail route answers with a non-OK status. */
  const SendFailed: Thrown := ErrorObject("Failed to send email")

  /** The `try` block around the post: a rejected `fetch` is re-thrown as is,
      a non-OK response throws "Failed to send email", and an OK response
      yields its JSON body (or whatever reading it threw). */
  function Deliver(response: Response): (r: Result<string, Thrown>)
    ensures r.Ok? <==> response.Replied? && response.ok && response.body.Ok?
    ensures response.FetchRejected? ==> r == Err(response.reason)
    ensures response.Replied? && !response.ok ==> r == Err(SendFailed)
    ensures response.Replied? && response.ok ==> r == response.body
  {
    match response
    case FetchRejected(t) => Err(t)
    case Replied(ok, body) => if ok then body else Err(SendFailed)
  }

  /** `sendEmailNotification(to, type, data)`, where `response` is how the
      mail route answers the post, if one is made. */
  function SendEmailNotification(to: string, emailType: string, data: EmailData, response: Response): (r: Result<string, Thrown>)
    ensures emailType !in EmailTypes ==> r == Err(UnknownTypeError(emailType))
    ensures emailType in EmailTypes ==> r == Deliver(response)
  {
    match BuildEmail(to, emailType, data)
    case Err(e) => Err(e)
    case Ok(_) => Deliver(response)
  }

  /** An unknown type fails the same way whatever the network would have
      done: it throws before any post. */
  lemma UnknownTypeBeforeNetwork(to: string, emailType: string, data: EmailData, r1: Response, r2: Response)
    requires emailType !in EmailTypes
    ensures SendEmailNotification(to, emailType, data, r1) == SendEmailNotification(to, emailType, data, r2)
    ensures SendEmailNotification(to, emailType, data, r1).Err?
  {
  }

  /** The "request" body shows the student, the component, the quantity and
      the reason. */
  lemma RequestBodyFields(d: EmailData)
    ensures Contains(RequestHtml(d), ShowText(d.studentName))
    ensures Contains(RequestHtml(d), ShowText(d.componentName))
    ensures Contains(RequestHtml(d), ShowNumber(d.quantity))
    ensures Contains(RequestHtml(d), ShowText(d.reason))
  {
    var vals := [ShowText(d.studentName), ShowText(d.componentName), ShowNumber(d.quantity), ShowText(d.reason)];
    FillContains(RequestParts, vals, 0);
    FillContains(RequestParts, vals, 1);
    FillContains(RequestParts, vals, 2);
    FillContains(RequestParts, vals, 3);
  }

  /** The "approved" and "rejected" bodies show the mentor, the component and
      the quantity. */
  lemma DecisionBodyFields(d: EmailData)
    ensures Contains(ApprovedHtml(d), ShowText(d.mentorName))
    ensures Contains(ApprovedHtml(d), ShowText(d.componentName))
    ensures Contains(ApprovedHtml(d), ShowNumber(d.quantity))
    ensures Contains(RejectedHtml(d), ShowText(d.mentorName))
    ensures Contains(RejectedHtml(d), ShowText(d.componentName))
    ensures Contains(RejectedHtml(d), ShowNumber(d.quantity))
  {
    var vals := [ShowText(d.mentorName), ShowText(d.componentName), ShowNumber(d.quantity)];
    FillContains(ApprovedParts, vals, 0);
    FillContains(ApprovedParts, vals, 1);
    FillContains(ApprovedParts, vals, 2);
    FillContains(RejectedParts, vals, 0);
    FillContains(RejectedParts, vals, 1);
    FillContains(RejectedParts, vals, 2);
  }

  /** The "returned" body shows the component and the quantity, and does not
      depend on the mentor, the student or the reason. */
  lemma ReturnedBodyFields(d: EmailData, mentor: Option<string>, student: Option<string>, reason: Option<string>)
    ensures Contains(ReturnedHtml(d), ShowText(d.componentName))
    ensures Contains(ReturnedHtml(d), ShowNumber(d.quantity))
    ensures ReturnedHtml(d) == ReturnedHtml(d.(mentorName := mentor, studentName := student, reason := reason))
  {
    var vals := [ShowText(d.componentName), ShowNumber(d.quantity)];
    FillContains(ReturnedParts, vals, 0);
    FillContains(ReturnedParts, vals, 1);
  }
}
