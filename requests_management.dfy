/** The mentor's request table: the status filter, the Approve / Reject /
    Mark Returned handlers, and the buttons each row offers. A handler looks
    the request up, awaits the student's notification, then writes the new
    status to the store and to the local list; it does not re-check the
    current status, and it never touches component quantities. */
module RequestsManagement {
  import opened Strings
  import opened Values
  import opened Seqs
  import opened Records
  import opened Lifecycle
  import opened EmailService

  /** What reading `studentInfo.email` throws when the request's student is
      not in the map (the engine's TypeError message). */
  const MissingStudentError: Thrown := ErrorObject("Cannot read properties of undefined (reading 'email')")

  /** The handlers act only through the three mentor buttons. */
  predicate MentorAction(a: Action) {
    a == Approve || a == Reject || a == MarkReturned
  }

  /** The notification type each handler sends. */
  function EmailTypeOf(a: Action): (t: string)
    requires MentorAction(a)
    ensures t in EmailTypes
  {
    match a
    case Approve => "approved"
    case Reject => "rejected"
    case MarkReturned => "returned"
  }

  function SuccessMessage(a: Action): string
    requires MentorAction(a)
  {
    match a
    case Approve => "Request approved and email sent!"
    case Reject => "Request rejected and email sent!"
    case MarkReturned => "Request marked as returned and email sent!"
  }

  /** The `catch` fallback for a thrown value that is not an `Error`. */
  function FallbackMessage(a: Action): string
    requires MentorAction(a)
  {
    match a
    case Approve => "Error approving request"
    case Reject => "Error rejecting request"
    case MarkReturned => "Error marking returned"
  }

  /** The notification data: the component's name (undefined when it is not
      in the map) and the quantity, plus `mentorName: "Mentor"` except for a
      return. */
  function NoticeData(a: Action, req: Request, components: map<string, string>): (d: EmailData)
    requires MentorAction(a)
    ensures d.quantity == Some(Finite(req.quantity))
    ensures d.componentName == (if req.componentId in components then Some(components[req.componentId]) else None)
    ensures d.mentorName == (if a == MarkReturned then None else Some("Mentor"))
    ensures d.studentName == None && d.studentEmail == None && d.reason == None
  {
    EmailData(
      None, None,
      if req.componentId in components then Some(components[req.componentId]) else None,
      Some(Finite(req.quantity)),
      None,
      if a == MarkReturned then None else Some("Mentor"))
  }

  /** The `sendEmailNotification` call a handler makes for a request whose
      student is known. */
  function Notice(a: Action, req: Request, to: string, components: map<string, string>): Notification
    requires MentorAction(a)
  {
    Notification(to, EmailTypeOf(a), NoticeData(a, req, components))
  }

  /** What a handler's notification posts: the student gets the template of
      the decision, and the mail always shows the component (or `undefined`)
      and the quantity; the approve and reject mails name the mentor as
      "Mentor". */
  lemma NoticeContent(a: Action, req: Request, to: string, components: map<string, string>)
    requires MentorAction(a)
    ensures var n := Notice(a, req, to, components);
      var r := BuildEmail(n.to, n.emailType, n.data);
      r.Ok? && r.value.to == to &&
      r.value.subject == (match a
        case Approve => ApprovedSubject
        case Reject => RejectedSubject
        case MarkReturned => ReturnedSubject) &&
      Contains(r.value.html, ShowText(n.data.componentName)) &&
      Contains(r.value.html, NumberToString(Finite(req.quantity))) &&
      (a != MarkReturned ==> Contains(r.value.html, "Mentor"))
  {
    var d := NoticeData(a, req, components);
    if a == MarkReturned {
      ReturnedBodyFields(d, None, None, None);
    } else {
      DecisionBodyFields(d);
    }
  }

  /** A button of a row: its action and whether it is enabled. */
  datatype RowButton = RowButton(action: Action, enabled: bool)

  /** `filteredRequests`: the whole list for "all", otherwise the requests
      with exactly that status. */
  function FilteredRequests(rs: seq<Request>, filter: string): (shown: seq<Request>)
    ensures |shown| <= |rs|
    ensures filter == "all" ==> shown == rs
    ensures filter != "all" ==> forall i :: 0 <= i < |shown| ==> shown[i] in rs && shown[i].status == filter
  {
    if filter == "all" then rs else Filter(rs, HasStatus(filter))
  }

  /** Filter "all" shows every request; any other filter shows exactly the
      requests whose status equals it, in their original order. */
  lemma FilteredRequestsMeaning(rs: seq<Request>, more: seq<Request>, filter: string, r: Request)
    ensures filter == "all" ==> FilteredRequests(rs, filter) == rs
    ensures filter != "all" ==> (r in FilteredRequests(rs, filter) <==> r in rs && r.status == filter)
    ensures FilteredRequests(rs + more, filter) == FilteredRequests(rs, filter) + FilteredRequests(more, filter)
  {
    if filter != "all" {
      FilterMembership(rs, HasStatus(filter), r);
      FilterConcat(rs, more, HasStatus(filter));
    }
  }

  class View {
    var requests: seq<Request>
    var components: map<string, string>
    var students: map<string, StudentInfo>
    var filter: string
    var actionLoading: Option<string>
    var message: string

    /** The state after the initial fetch: the request rows, and the
        component-name and student maps filled from the store's rows. */
    constructor (requestRows: Option<seq<Request>>, componentRows: Option<seq<Component>>, userRows: Option<seq<User>>)
      ensures requests == RowsOf(requestRows)
      ensures components == IndexOf(RowsOf(componentRows), ComponentKey, ComponentName)
      ensures students == IndexOf(RowsOf(userRows), UserKey, UserContact)
      ensures filter == "all" && actionLoading == None && message == ""
    {
      var cs := Index(RowsOf(componentRows), ComponentKey, ComponentName);
      var us := Index(RowsOf(userRows), UserKey, UserContact);
      requests := RowsOf(requestRows);
      components := cs;
      students := us;
      filter := "all";
      actionLoading := None;
      message := "";
    }

    /** A click on one of the filter buttons. */
    method SetFilter(f: string)
      modifies this
      ensures filter == f
      ensures requests == old(requests) && components == old(components) && students == old(students)
      ensures actionLoading == old(actionLoading) && message == old(message)
    {
      filter := f;
    }

    /** The buttons rendered in the row of `r`: the actions its status
        offers, each disabled while a handler for that very request runs. */
    function RowButtons(r: Request): (buttons: set<RowButton>)
      reads this
      ensures forall b :: b in buttons ==> b.action in MentorActions(r.status)
      ensures forall b :: b in buttons ==> (b.enabled <==> actionLoading != Some(r.id))
      ensures forall a :: a in MentorActions(r.status) ==> RowButton(a, actionLoading != Some(r.id)) in buttons
    {
      set a | a in MentorActions(r.status) :: RowButton(a, actionLoading != Some(r.id))
    }

    /** The part of a handler after the request and its student were found:
        await the notification to `to`, then write the new status; whatever
        either step throws is caught and shown with the handler's fallback
        text. */
    method NotifyThenUpdate(a: Action, req: Request, to: string, response: Response, update: Option<Thrown>)
      returns (email: Notification, writes: seq<StoreWrite>)
      requires MentorAction(a)
      modifies this
      ensures components == old(components) && students == old(students) && filter == old(filter)
      ensures actionLoading == old(actionLoading)
      ensures email == Notice(a, req, to, components)
      ensures match Deliver(response)
        case Err(e) =>
          writes == [] && requests == old(requests) && message == CaughtMessage(e, FallbackMessage(a))
        case Ok(_) =>
          writes == [UpdateRequestStatus(req.id, Target(a))] &&
          if update.Some? then
            requests == old(requests) && message == CaughtMessage(update.value, FallbackMessage(a))
          else
            requests == SetStatus(old(requests), req.id, Target(a)) && message == SuccessMessage(a)
    {
      email := Notice(a, req, to, components);
      writes := [];
      var sent := SendEmailNotification(to, EmailTypeOf(a), NoticeData(a, req, components), response);
      if sent.Err? {
        message := CaughtMessage(sent.error, FallbackMessage(a));
      } else {
        writes := [UpdateRequestStatus(req.id, Target(a))];
        if update.Some? {
          message := CaughtMessage(update.value, FallbackMessage(a));
        } else {
          requests := SetStatus(requests, req.id, Target(a));
          message := SuccessMessage(a);
        }
      }
    }

    /** `handleApprove`, `handleReject` and `handleMarkReturned` (chosen by
        `a`). `response` is how the mail route answers the notification and
        `update` the error the status update returns, if any. It yields the
        notification posted and the store writes issued. */
    method HandleAction(a: Action, requestId: string, response: Response, update: Option<Thrown>)
      returns (email: Option<Notification>, writes: seq<StoreWrite>)
      requires MentorAction(a)
      modifies this
      ensures components == old(components) && students == old(students) && filter == old(filter)
      ensures actionLoading == None
      // only the request's status is ever written
      ensures forall w :: w in writes ==> w == UpdateRequestStatus(requestId, Target(a)) && !WritesComponents(w)
      // an id that is not in the list
      ensures FindById(old(requests), requestId).None? ==>
        requests == old(requests) && message == "Request not found" && email == None && writes == []
      // a request whose student is missing from the map fails before any notification
      ensures var f := FindById(old(requests), requestId);
        f.Some? && f.value.studentId !in students ==>
          requests == old(requests) && message == CaughtMessage(MissingStudentError, FallbackMessage(a)) &&
          email == None && writes == []
      // otherwise the notification is awaited first, then the store update
      ensures var f := FindById(old(requests), requestId);
        f.Some? && f.value.studentId in students ==>
          email == Some(Notice(a, f.value, students[f.value.studentId].email, components)) &&
          match Deliver(response)
          case Err(e) =>
            requests == old(requests) && writes == [] && message == CaughtMessage(e, FallbackMessage(a))
          case Ok(_) =>
            writes == [UpdateRequestStatus(requestId, Target(a))] &&
            if update.Some? then
              requests == old(requests) && message == CaughtMessage(update.value, FallbackMessage(a))
            else
              requests == SetStatus(old(requests), requestId, Target(a)) && message == SuccessMessage(a)
    {
      actionLoading := Some(requestId);
      email, writes := None, [];
      var found := FindById(requests, requestId);
      if found.None? {
        message := CaughtMessage(ErrorObject("Request not found"), FallbackMessage(a));
      } else if found.value.studentId !in students {
        message := CaughtMessage(MissingStudentError, FallbackMessage(a));
      } else {
        var req := found.value;
        var sent;
        sent, writes := NotifyThenUpdate(a, req, students[req.studentId].email, response, update);
        email := Some(sent);
      }
      actionLoading := None;
    }
  }
}
