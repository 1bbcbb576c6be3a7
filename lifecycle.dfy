/** The request status lifecycle as the views implement it: statuses are
    plain strings, the buttons a view renders for a status are the only
    guard, and a handler rewrites the status of the matching list entry. */
module Lifecycle {
  import opened Values
  import opened Records

  const Requested: string := "Requested"
  const Approved: string := "Approved"
  const Rejected: string := "Rejected"
  const Returned: string := "Returned"

  /** The four statuses the views know. The store column is free text. */
  const Statuses: set<string> := {Requested, Approved, Rejected, Returned}

  /** The buttons of the two request tables: Approve, Reject and Mark Returned
      for a mentor, Return Component for the student. */
  datatype Action = Approve | Reject | MarkReturned | ReturnComponent

  /** The status an action writes. */
  function Target(a: Action): string {
    match a
    case Approve => Approved
    case Reject => Rejected
    case MarkReturned => Returned
    case ReturnComponent => Returned
  }

  /** The buttons the mentor's table renders in a row with this status. */
  function MentorActions(status: string): (r: set<Action>)
    ensures Approve in r <==> status == Requested
    ensures Reject in r <==> status == Requested
    ensures MarkReturned in r <==> status == Approved
    ensures ReturnComponent !in r
  {
    if status == Requested then {Approve, Reject}
    else if status == Approved then {MarkReturned}
    else {}
  }

  /** The buttons the student's table renders in a row with this status. */
  function StudentActions(status: string): (r: set<Action>)
    ensures r == {} || (r == {ReturnComponent} && status == Approved)
    ensures ReturnComponent in r <==> status == Approved
  {
    if status == Approved then {ReturnComponent} else {}
  }

  /** Some view offers the action for this status. */
  predicate Offered(status: string, a: Action) {
    a in MentorActions(status) || a in StudentActions(status)
  }

  /** How far along the lifecycle a status is: Rejected, Returned and every
      unknown status offer nothing. */
  function Stage(status: string): nat {
    if status == Requested then 0 else if status == Approved then 1 else 2
  }

  /** Every offered action moves the request strictly forward, and only
      "Requested" and "Approved" offer anything. */
  lemma OfferedMovesForward(status: string, a: Action)
    requires Offered(status, a)
    ensures status == Requested || status == Approved
    ensures Stage(status) < Stage(Target(a))
  {
  }

  /** "Rejected" and "Returned" are terminal: no view offers an action. */
  lemma TerminalStatuses(a: Action)
    ensures !Offered(Rejected, a) && !Offered(Returned, a)
  {
  }

  /** The status after clicking the actions in order, or `None` as soon as
      one of them is not on offer. */
  function Replay(status: string, actions: seq<Action>): Option<string>
    decreases |actions|
  {
    if actions == [] then Some(status)
    else if Offered(status, actions[0]) then Replay(Target(actions[0]), actions[1..])
    else None
  }

  /** Following only offered buttons, a request takes at most two steps
      from "Requested", ends in one of the four statuses, and never comes back
      to an earlier stage. */
  lemma {:induction false} ReplayBounded(status: string, actions: seq<Action>)
    requires Replay(status, actions).Some?
    ensures Stage(status) + |actions| <= Stage(Replay(status, actions).value) <= 2
    ensures status in Statuses ==> Replay(status, actions).value in Statuses
    ensures actions != [] ==> Replay(status, actions).value != Requested
    decreases |actions|
  {
    if actions != [] {
      OfferedMovesForward(status, actions[0]);
      ReplayBounded(Target(actions[0]), actions[1..]);
    }
  }

  /** The filter test `(r) => r.status === status`. */
  function HasStatus(status: string): Request -> bool {
    (r: Request) => r.status == status
  }

  /** `requests.find((r) => r.id === id)`. */
  function FindById(rs: seq<Request>, id: string): (r: Option<Request>)
    ensures r.None? <==> forall i :: 0 <= i < |rs| ==> rs[i].id != id
    ensures r.Some? ==> r.value.id == id
    ensures r.Some? ==> exists i :: 0 <= i < |rs| && rs[i] == r.value && (forall j :: 0 <= j < i ==> rs[j].id != id)
  {
    if rs == [] then None
    else if rs[0].id == id then Some(rs[0])
    else FindById(rs[1..], id)
  }

  /** `requests.map((r) => (r.id === id ? { ...r, status } : r))`: every entry
      with that id gets the status, nothing else changes. */
  function SetStatus(rs: seq<Request>, id: string, status: string): (r: seq<Request>)
    ensures |r| == |rs|
    ensures forall i :: 0 <= i < |rs| ==> r[i] == if rs[i].id == id then rs[i].(status := status) else rs[i]
  {
    if rs == [] then []
    else [if rs[0].id == id then rs[0].(status := status) else rs[0]] + SetStatus(rs[1..], id, status)
  }

  /** An id that is not in the list leaves it as it was. */
  lemma SetStatusAbsent(rs: seq<Request>, id: string, status: string)
    requires forall i :: 0 <= i < |rs| ==> rs[i].id != id
    ensures SetStatus(rs, id, status) == rs
  {
  }

  /** With unique ids, exactly the one entry with the id changes, and only
      in its status; ids and order are kept, so ids stay unique. */
  lemma SetStatusOne(rs: seq<Request>, k: nat, status: string)
    requires UniqueIds(rs) && k < |rs|
    ensures SetStatus(rs, rs[k].id, status) == rs[k := rs[k].(status := status)]
    ensures UniqueIds(SetStatus(rs, rs[k].id, status))
  {
    var after, expected := SetStatus(rs, rs[k].id, status), rs[k := rs[k].(status := status)];
    forall i | 0 <= i < |rs| ensures after[i] == expected[i] {
      if i < k {
        assert rs[i].id != rs[k].id;
      } else if k < i {
        assert rs[k].id != rs[i].id;
      }
    }
    assert after == expected;
    assert forall i :: 0 <= i < |rs| ==> expected[i].id == rs[i].id;
  }

  /** The `className` of a status badge in both request tables. */
  function StatusBadge(status: string): (badge: string)
    ensures badge == "bg-gray-100 text-gray-800" <==> status !in {Requested, Approved, Rejected}
  {
    if status == Requested then "bg-yellow-100 text-yellow-800"
    else if status == Approved then "bg-green-100 text-green-800"
    else if status == Returned then "bg-gray-100 text-gray-800"
    else if status == Rejected then "bg-red-100 text-red-800"
    else "bg-gray-100 text-gray-800"
  }

  /** The badge tells "Requested", "Approved" and "Rejected" apart from each
      other and from everything else; "Returned" looks like any unknown
      status. */
  lemma StatusBadgeSeparates(s: string, t: string)
    ensures StatusBadge(s) == StatusBadge(t) <==>
      s == t || (s !in {Requested, Approved, Rejected} && t !in {Requested, Approved, Rejected})
  {
  }

  /** The icon text next to a status in the student's table. The source
      holds the emoji's UTF-8 bytes mis-decoded as Windows-1252 and saved
      again, so these are the characters it actually renders. */
  function StatusIcon(status: string): (icon: string)
    ensures icon == "\U{E2}\U{201C}" <==> status !in Statuses
  {
    if status == Requested then "\U{E2}\U{B3}"
    else if status == Approved then "\U{E2}\U{153}\U{2026}"
    else if status == Returned then "\U{F0}\U{178}\U{201C}\U{A6}"
    else if status == Rejected then "\U{E2}\U{152}"
    else "\U{E2}\U{201C}"
  }

  /** Each known status has its own icon; every other status shares one. */
  lemma StatusIconSeparates(s: string, t: string)
    ensures StatusIcon(s) == StatusIcon(t) <==> s == t || (s !in Statuses && t !in Statuses)
  {
  }
}
