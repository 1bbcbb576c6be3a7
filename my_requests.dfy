/** The student's own request table: the Return Component handler, the
    per-row action cell, and the four summary counts. */
module MyRequests {
  import opened Values
  import opened Seqs
  import opened Records
  import opened Lifecycle

  /** What the Actions cell of a row shows. */
  datatype ActionCell = ReturnButton(caption: string) | Note(text: string) | Blank

  /** The Actions cell for a status; `busy` is `actionLoading === request.id`. */
  function ActionCellFor(status: string, busy: bool): (cell: ActionCell)
    ensures cell.ReturnButton? ==> (cell.caption == "Returning..." <==> busy)
  {
    if status == Approved then ReturnButton(if busy then "Returning..." else "Return Component")
    else if status == Rejected then Note("No action available")
    else if status == Returned then Note("Completed")
    else if status == Requested then Note("Awaiting approval")
    else Blank
  }

  /** Only an "Approved" row has a button, and it is the one action the
      student is offered; every other known status shows a fixed note, and
      an unknown status shows nothing. */
  lemma ActionCellMeaning(status: string, busy: bool)
    ensures ActionCellFor(status, busy).ReturnButton? <==> StudentActions(status) == {ReturnComponent}
    ensures ActionCellFor(status, busy).Note? <==> status in Statuses - {Approved}
    ensures ActionCellFor(status, busy).Blank? <==> status !in Statuses
  {
  }

  /** The four cards under the table. */
  datatype Summary = Summary(pending: nat, approved: nat, returned: nat, rejected: nat)

  /** `requests.filter((r) => r.status === X).length` for each card. */
  function SummaryCounts(rs: seq<Request>): Summary {
    Summary(
      Count(rs, HasStatus(Requested)),
      Count(rs, HasStatus(Approved)),
      Count(rs, HasStatus(Returned)),
      Count(rs, HasStatus(Rejected)))
  }

  function Total(s: Summary): nat {
    s.pending + s.approved + s.returned + s.rejected
  }

  /** The number of cards a status counts towards: one for each of the four
      statuses, none for anything else. */
  function CardsFor(status: string): nat {
    if status in Statuses then 1 else 0
  }

  /** Counting the first request and then the rest. */
  lemma CountFirst(rs: seq<Request>, status: string)
    requires rs != []
    ensures Count(rs, HasStatus(status)) == (if rs[0].status == status then 1 else 0) + Count(rs[1..], HasStatus(status))
  {
  }

  /** The first request adds one to the total of the cards exactly when its
      status is one of the four. */
  lemma SummaryFirst(rs: seq<Request>)
    requires rs != []
    ensures Total(SummaryCounts(rs)) == CardsFor(rs[0].status) + Total(SummaryCounts(rs[1..]))
  {
    CountFirst(rs, Requested);
    CountFirst(rs, Approved);
    CountFirst(rs, Returned);
    CountFirst(rs, Rejected);
  }

  /** The cards together count at most every request, and exactly every
      request when each status is one of the four. */
  lemma {:induction false} SummaryCoversList(rs: seq<Request>)
    ensures Total(SummaryCounts(rs)) <= |rs|
    ensures (forall i :: 0 <= i < |rs| ==> rs[i].status in Statuses) ==> Total(SummaryCounts(rs)) == |rs|
  {
    if rs != [] {
      SummaryCoversList(rs[1..]);
      SummaryFirst(rs);
      if forall i :: 0 <= i < |rs| ==> rs[i].status in Statuses {
        assert forall i :: 0 <= i < |rs[1..]| ==> rs[1..][i].status in Statuses by {
          forall i | 0 <= i < |rs[1..]| ensures rs[1..][i].status in Statuses {
            assert rs[1..][i] == rs[i + 1];
          }
        }
        assert rs[0].status in Statuses;
      }
    }
  }

  /** Replacing one entry changes each count only by what that entry
      contributes. */
  lemma CountReplace(rs: seq<Request>, k: nat, v: Request, p: Request -> bool)
    requires k < |rs|
    ensures Count(rs[k := v], p) + (if p(rs[k]) then 1 else 0) == Count(rs, p) + (if p(v) then 1 else 0)
  {
    var a, b := rs[..k], rs[k + 1..];
    assert rs == a + [rs[k]] + b;
    assert rs[k := v] == a + [v] + b;
    CountConcat(a + [rs[k]], b, p);
    CountConcat(a, [rs[k]], p);
    CountConcat(a + [v], b, p);
    CountConcat(a, [v], p);
    FilterSingleton(rs[k], p);
    FilterSingleton(v, p);
  }

  /** Returning an approved request moves one unit from the Approved card to
      the Returned card and leaves the other two alone. */
  lemma ReturnMovesOneCount(rs: seq<Request>, k: nat)
    requires UniqueIds(rs) && k < |rs| && rs[k].status == Approved
    ensures var after := SummaryCounts(SetStatus(rs, rs[k].id, Returned));
      after.approved == SummaryCounts(rs).approved - 1 &&
      after.returned == SummaryCounts(rs).returned + 1 &&
      after.pending == SummaryCounts(rs).pending &&
      after.rejected == SummaryCounts(rs).rejected
  {
    SetStatusOne(rs, k, Returned);
    var v := rs[k].(status := Returned);
    CountReplace(rs, k, v, HasStatus(Requested));
    CountReplace(rs, k, v, HasStatus(Approved));
    CountReplace(rs, k, v, HasStatus(Returned));
    CountReplace(rs, k, v, HasStatus(Rejected));
  }

  class View {
    var requests: seq<Request>
    var components: map<string, string>
    var message: string
    var actionLoading: Option<string>

    /** The state after the initial fetch of the student's requests (in the
        order the store returns them) and of the component names. */
    constructor (requestRows: Option<seq<Request>>, componentRows: Option<seq<Component>>)
      ensures requests == RowsOf(requestRows)
      ensures components == IndexOf(RowsOf(componentRows), ComponentKey, ComponentName)
      ensures message == "" && actionLoading == None
    {
      var cs := Index(RowsOf(componentRows), ComponentKey, ComponentName);
      requests := RowsOf(requestRows);
      components := cs;
      message := "";
      actionLoading := None;
    }

    /** `handleReturnComponent`: write "Returned" to the store, then to the
        local list. It looks nothing up first, so an id not in the list only
        costs a store call. `update` is the error the store returns, if any. */
    method HandleReturnComponent(requestId: string, update: Option<Thrown>) returns (writes: seq<StoreWrite>)
      modifies this
      ensures writes == [UpdateRequestStatus(requestId, Returned)]
      ensures components == old(components)
      ensures actionLoading == None
      ensures update.None? ==>
        requests == SetStatus(old(requests), requestId, Returned) &&
        message == "Component marked as returned successfully!"
      ensures update.Some? ==>
        requests == old(requests) && message == CaughtMessage(update.value, "Error returning component")
    {
      actionLoading := Some(requestId);
      message := "";
      writes := [UpdateRequestStatus(requestId, Returned)];
      if update.Some? {
        message := CaughtMessage(update.value, "Error returning component");
      } else {
        requests := SetStatus(requests, requestId, Returned);
        message := "Component marked as returned successfully!";
      }
      actionLoading := None;
    }
  }
}
