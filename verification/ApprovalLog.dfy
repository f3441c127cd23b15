/** The approval queue's file as an insertion-ordered map of records (ystar/adapters/connector.py). */
module ApprovalLog {
  import opened Common

  /** The part of a record no operation rewrites. */
  datatype Request = Request(sessionId: string, agentId: string, eventType: string, eventDetail: string,
                             riskReason: string, createdAt: real, expiresAt: real, cieuEventId: Option<string>)

  datatype Approval = Approval(id: string, request: Request, status: string, operator: Option<string>,
      note: Option<string>)

  /** A line either parses to a record or is skipped by the loader. */
  datatype Line = Malformed | Entry(approval: Approval)

  const PENDING := "pending"
  const APPROVED := "approved"
  const DENIED := "denied"
  const EXPIRED := "expired"

  // ---- the ordered map ------------------------------------------------------------

  ghost predicate UniqueIds(items: seq<Approval>) {
    forall i, j :: 0 <= i < j < |items| ==> items[i].id != items[j].id
  }

  /** Position of an id, or the length when absent. */
  function IndexOf(items: seq<Approval>, id: string): (k: nat)
    ensures k <= |items|
    ensures k < |items| ==> items[k].id == id
    ensures forall j :: 0 <= j < k ==> items[j].id != id
  {
    if items == [] || items[0].id == id then 0 else 1 + IndexOf(items[1..], id)
  }

  predicate Has(items: seq<Approval>, id: string) { IndexOf(items, id) < |items| }

  /** Assigning to a Python dict: a known key keeps its place, a new one goes last. */
  function Put(items: seq<Approval>, a: Approval): seq<Approval> {
    if Has(items, a.id) then items[IndexOf(items, a.id) := a] else items + [a]
  }

  function SetStatus(items: seq<Approval>, id: string, status: string, operator: string, note: string): seq<Approval> {
    if Has(items, id) then
      var k := IndexOf(items, id);
      items[k := items[k].(status := status, operator := Some(operator), note := Some(note))]
    else items
  }

  predicate IsExpired(a: Approval, now: real) { now > a.request.expiresAt }

  predicate Overdue(a: Approval, now: real) { a.status == PENDING && IsExpired(a, now) }

  function ExpireOne(a: Approval, now: real): Approval {
    if Overdue(a, now) then a.(status := EXPIRED, operator := Some("system"), note := Some("")) else a
  }

  /** Every overdue record expired, every other one as it was. */
  function ExpireAll(items: seq<Approval>, now: real): (r: seq<Approval>)
    ensures |r| == |items| && forall i :: 0 <= i < |r| ==> r[i] == ExpireOne(items[i], now)
  {
    seq(|items|, i requires 0 <= i < |items| => ExpireOne(items[i], now))
  }

  /** The pending, unexpired records in log order. */
  function StillPending(items: seq<Approval>, now: real): seq<Approval> {
    if items == [] then []
    else
      var last := items[|items| - 1];
      StillPending(items[..|items| - 1], now) + (if last.status == PENDING && !IsExpired(last, now) then [last] else [])
  }

  // ---- the file ----------------------------------------------------------------------

  function Load(lines: seq<Line>): seq<Approval> {
    if lines == [] then []
    else AddLine(Load(lines[..|lines| - 1]), lines[|lines| - 1])
  }

  function AddLine(items: seq<Approval>, line: Line): seq<Approval> {
    match line
    case Malformed => items
    case Entry(a) => Put(items, a)
  }

  function Dump(items: seq<Approval>): (lines: seq<Line>)
    ensures |lines| == |items| && forall i :: 0 <= i < |lines| ==> lines[i] == Entry(items[i])
  {
    seq(|items|, i requires 0 <= i < |items| => Entry(items[i]))
  }

  /** Load, change one record, write everything back; the file is left alone when the id is unknown. */
  function UpdateFile(lines: seq<Line>, id: string, status: string, operator: string, note: string): seq<Line> {
    if Has(Load(lines), id) then Dump(SetStatus(Load(lines), id, status, operator, note)) else lines
  }

  // ---- refinement ---------------------------------------------------------------------

  lemma IndexOfUnique(items: seq<Approval>, k: nat)
    requires UniqueIds(items) && k < |items|
    ensures IndexOf(items, items[k].id) == k
  {
  }

  lemma {:induction false} LoadUnique(lines: seq<Line>)
    ensures UniqueIds(Load(lines))
  {
    if lines != [] {
      LoadUnique(lines[..|lines| - 1]);
    }
  }

  lemma AbsentBefore(items: seq<Approval>, k: nat)
    requires UniqueIds(items) && k < |items|
    ensures !Has(items[..k], items[k].id)
  {
  }

  lemma {:induction false} LoadDump(items: seq<Approval>)
    requires UniqueIds(items)
    ensures Load(Dump(items)) == items
  {
    if items != [] {
      var k := |items| - 1;
      LoadDump(items[..k]);
      AbsentBefore(items, k);
      assert Dump(items)[..k] == Dump(items[..k]) && Dump(items)[k] == Entry(items[k]);
      assert Load(Dump(items)) == Put(items[..k], items[k]) == items[..k] + [items[k]];
      assert items == items[..k] + [items[k]];
    }
  }

  lemma SetStatusUnique(items: seq<Approval>, id: string, status: string, operator: string, note: string)
    requires UniqueIds(items)
    ensures UniqueIds(SetStatus(items, id, status, operator, note))
  {
  }

  /** Rewriting what was loaded changes nothing a later load sees, even when the file holds
      malformed or superseded lines. */
  lemma RewriteIsIdentity(lines: seq<Line>)
    ensures Load(Dump(Load(lines))) == Load(lines)
  {
    LoadUnique(lines);
    LoadDump(Load(lines));
  }

  /** A status update of the file is the same update of the map, known id or not. */
  lemma UpdateRefines(lines: seq<Line>, id: string, status: string, operator: string, note: string)
    ensures Load(UpdateFile(lines, id, status, operator, note)) == SetStatus(Load(lines), id, status, operator, note)
  {
    LoadUnique(lines);
    if Has(Load(lines), id) {
      SetStatusUnique(Load(lines), id, status, operator, note);
      LoadDump(SetStatus(Load(lines), id, status, operator, note));
    }
  }

  // ---- what a load makes of any file ------------------------------------------------------------

  predicate Records(line: Line, id: string) { line.Entry? && line.approval.id == id }

  ghost predicate IsFirstLine(lines: seq<Line>, id: string, i: nat) {
    i < |lines| && Records(lines[i], id) && forall j :: 0 <= j < i ==> !Records(lines[j], id)
  }

  ghost predicate IsLastLine(lines: seq<Line>, id: string, i: nat) {
    i < |lines| && Records(lines[i], id) && forall j :: i < j < |lines| ==> !Records(lines[j], id)
  }

  /** Assigning one record leaves every other id and every earlier place alone. */
  lemma PutPlaces(items: seq<Approval>, a: Approval, id: string)
    ensures Has(Put(items, a), id) <==> Has(items, id) || id == a.id
    ensures Has(items, id) ==> IndexOf(Put(items, a), id) == IndexOf(items, id)
    ensures !Has(items, id) && id == a.id ==> IndexOf(Put(items, a), id) == |items|
    ensures Has(items, id) && id != a.id ==> Put(items, a)[IndexOf(items, id)] == items[IndexOf(items, id)]
  {
    PutIndex(items, a, id);
  }

  lemma {:induction false} PutIndex(items: seq<Approval>, a: Approval, id: string)
    ensures IndexOf(Put(items, a), id)
         == if Has(items, id) then IndexOf(items, id) else if id == a.id then |items| else |Put(items, a)|
  {
    if items != [] && items[0].id != id && items[0].id != a.id {
      PutIndex(items[1..], a, id);
      assert Put(items, a)[1..] == Put(items[1..], a);
    } else if items != [] && items[0].id != id {
      assert Put(items, a)[1..] == items[1..];
    }
  }

  /** An id is loaded iff some well-formed line records it; malformed lines anywhere change nothing. */
  lemma {:induction false} LoadedIffRecorded(lines: seq<Line>, id: string)
    ensures Has(Load(lines), id) <==> exists i :: 0 <= i < |lines| && Records(lines[i], id)
  {
    if lines != [] {
      var init, last := lines[..|lines| - 1], lines[|lines| - 1];
      LoadedIffRecorded(init, id);
      AddLineHas(Load(init), last, id);
      assert forall i :: 0 <= i < |init| ==> init[i] == lines[i];
    }
  }

  lemma AddLineHas(items: seq<Approval>, line: Line, id: string)
    ensures Has(AddLine(items, line), id) <==> Has(items, id) || Records(line, id)
  {
    if line.Entry? { PutPlaces(items, line.approval, id); }
  }

  predicate Holds(items: seq<Approval>, id: string, a: Approval) {
    Has(items, id) && items[IndexOf(items, id)] == a
  }

  lemma LineSets(items: seq<Approval>, line: Line, id: string)
    requires Records(line, id)
    ensures Holds(AddLine(items, line), id, line.approval)
  {
    PutPlaces(items, line.approval, id);
  }

  lemma LineKeeps(items: seq<Approval>, line: Line, id: string, a: Approval)
    requires Holds(items, id, a) && !Records(line, id)
    ensures Holds(AddLine(items, line), id, a)
  {
    if line.Entry? { PutPlaces(items, line.approval, id); }
  }

  /** The record loaded for an id is that of its last line. */
  lemma {:induction false} LoadIsLastLine(lines: seq<Line>, id: string, i: nat)
    requires IsLastLine(lines, id, i)
    ensures Holds(Load(lines), id, lines[i].approval)
  {
    var k := |lines| - 1;
    if i == k {
      LineSets(Load(lines[..k]), lines[k], id);
    } else {
      assert IsLastLine(lines[..k], id, i);
      LoadIsLastLine(lines[..k], id, i);
      LineKeeps(Load(lines[..k]), lines[k], id, lines[i].approval);
    }
  }

  /** Records come in the order of their ids' first lines. */
  lemma LoadKeepsFirstOrder(lines: seq<Line>, x: string, y: string, i: nat, j: nat)
    requires IsFirstLine(lines, x, i) && IsFirstLine(lines, y, j) && i < j
    ensures ComesBefore(Load(lines), x, y)
  {
    var before := lines[..j];
    assert Records(before[i], x);
    LoadedIffRecorded(before, x);
    LoadedIffRecorded(before, y);
    NewGoesLast(Load(before), lines[j], x, y);
    assert lines[..j + 1][..j] == before;
    OrderStays(lines, j + 1, x, y);
  }

  lemma {:induction false} OrderStays(lines: seq<Line>, m: nat, x: string, y: string)
    requires m <= |lines| && ComesBefore(Load(lines[..m]), x, y)
    ensures ComesBefore(Load(lines), x, y)
  {
    if m == |lines| {
      assert lines[..m] == lines;
    } else {
      var init := lines[..|lines| - 1];
      assert init[..m] == lines[..m];
      OrderStays(init, m, x, y);
      PlacesStay(Load(init), lines[|lines| - 1], x, y);
    }
  }

  ghost predicate ComesBefore(items: seq<Approval>, x: string, y: string) {
    IndexOf(items, x) < IndexOf(items, y) < |items|
  }

  lemma PlacesStay(items: seq<Approval>, line: Line, x: string, y: string)
    requires ComesBefore(items, x, y)
    ensures ComesBefore(AddLine(items, line), x, y)
  {
    if line.Entry? {
      PutPlaces(items, line.approval, x);
      PutPlaces(items, line.approval, y);
    }
  }

  lemma NewGoesLast(items: seq<Approval>, line: Line, x: string, y: string)
    requires Has(items, x) && !Has(items, y) && Records(line, y)
    ensures ComesBefore(AddLine(items, line), x, y)
  {
    PutPlaces(items, line.approval, x);
    PutPlaces(items, line.approval, y);
  }

  /** The listing's result: the records still pending at the time, deadline included, in log order. */
  lemma {:induction false} StillPendingIs(items: seq<Approval>, now: real)
    ensures forall a ::
        a in StillPending(items, now) <==> a in items && a.status == "pending" && now <= a.request.expiresAt
  {
    if items != [] {
      var init := items[..|items| - 1];
      StillPendingIs(init, now);
      assert items == init + [items[|items| - 1]];
    }
  }

  lemma {:induction false} StillPendingInOrder(items: seq<Approval>, now: real, p: nat, q: nat)
    requires UniqueIds(items) && p < q < |StillPending(items, now)|
    ensures var r := StillPending(items, now); IndexOf(items, r[p].id) < IndexOf(items, r[q].id) < |items|
  {
    var init := items[..|items| - 1];
    var r := StillPending(init, now);
    StillPendingIs(init, now);
    if q < |r| {
      StillPendingInOrder(init, now, p, q);
      IndexInInit(items, r[q]);
    } else {
      IndexOfUnique(items, |items| - 1);
    }
    assert r[p] in r;
    IndexInInit(items, r[p]);
  }

  lemma IndexInInit(items: seq<Approval>, a: Approval)
    requires UniqueIds(items) && items != [] && a in items[..|items| - 1]
    ensures IndexOf(items, a.id) == IndexOf(items[..|items| - 1], a.id) < |items| - 1
  {
    var init := items[..|items| - 1];
    var i :| 0 <= i < |init| && init[i] == a;
    IndexOfUnique(items, i);
    IndexOfUnique(init, i);
  }

  /** One well-formed line per id: what the queue's own rewrite leaves behind. */
  ghost predicate Clean(lines: seq<Line>) {
    && (forall i :: 0 <= i < |lines| ==> lines[i].Entry?)
    && (forall i, j ::
        0 <= i < j < |lines| && lines[i].Entry? && lines[j].Entry? ==> lines[i].approval.id != lines[j].approval.id)
  }

  lemma {:induction false} LoadShortens(lines: seq<Line>)
    ensures |Load(lines)| <= |lines|
  {
    if lines != [] { LoadShortens(lines[..|lines| - 1]); }
  }

  lemma {:induction false} CleanRoundTrip(lines: seq<Line>)
    requires Clean(lines)
    ensures Dump(Load(lines)) == lines
  {
    if lines != [] {
      var init, last := lines[..|lines| - 1], lines[|lines| - 1];
      CleanRoundTrip(init);
      var items := Load(init);
      assert forall i :: 0 <= i < |items| ==> init[i] == Entry(items[i]);
      assert !Has(items, last.approval.id);
      assert Load(lines) == items + [last.approval];
    }
  }

  /** The record stands as the update would leave it. */
  predicate Carries(a: Approval, status: string, operator: string, note: string) {
    a.status == status && a.operator == Some(operator) && a.note == Some(note)
  }

  /** A status update leaves the earlier file as a prefix of the new one, as an append-only log would, only
      when it changes nothing: iff the id is unknown, or the file is clean and the record already stands so. */
  lemma UpdateAppendsIff(lines: seq<Line>, id: string, status: string, operator: string, note: string)
    ensures var items := Load(lines);
            lines <= UpdateFile(lines, id, status, operator, note) <==>
              !Has(items, id) || (Clean(lines) && Carries(items[IndexOf(items, id)], status, operator, note))
    ensures lines <= UpdateFile(lines, id, status, operator, note) ==>
        UpdateFile(lines, id, status, operator, note) == lines
  {
    var items, file := Load(lines), UpdateFile(lines, id, status, operator, note);
    LoadUnique(lines);
    LoadShortens(lines);
    SetStatusUnique(items, id, status, operator, note);
    if Has(items, id) {
      if lines <= file {
        assert file == lines;
        UpdateRefines(lines, id, status, operator, note);
      }
      if Clean(lines) && Carries(items[IndexOf(items, id)], status, operator, note) {
        CleanRoundTrip(lines);
        assert SetStatus(items, id, status, operator, note) == items;
      }
    }
  }

  /** The first decision on the only record of a file already rewrites its line. */
  lemma UpdateRewritesLine(a: Approval, operator: string, note: string)
    requires a.status == PENDING
    ensures !([Entry(a)] <= UpdateFile([Entry(a)], a.id, APPROVED, operator, note))
  {
    assert [Entry(a)][..0] == [];
    assert Load([Entry(a)]) == [a];
    assert IndexOf([a], a.id) == 0;
  }

  /** Appending a record adds it last iff its id is new; a colliding id would take over the old
      record's place and contents. */
  lemma SubmitRefines(lines: seq<Line>, a: Approval)
    ensures Load(lines + [Entry(a)]) == Put(Load(lines), a)
    ensures Load(lines + [Entry(a)]) == Load(lines) + [a] <==> !Has(Load(lines), a.id)
  {
  }

  /** The map when the listing loop has dealt with the first i records of its snapshot. */
  ghost function Progress(items: seq<Approval>, i: nat, now: real): seq<Approval>
    requires i <= |items|
  {
    ExpireAll(items[..i], now) + items[i..]
  }

  lemma ProgressEnds(items: seq<Approval>, now: real)
    ensures Progress(items, 0, now) == items && Progress(items, |items|, now) == ExpireAll(items, now)
  {
  }

  /** One turn of the listing loop: the record it looks at is still at its place. */
  lemma ExpireStep(items: seq<Approval>, i: nat, now: real)
    requires UniqueIds(items) && i < |items|
    ensures Progress(items, i + 1, now)
         == if Overdue(items[i], now) then SetStatus(Progress(items, i, now), items[i].id, EXPIRED, "system", "")
             else Progress(items, i, now)
  {
  }

  lemma StillPendingStep(items: seq<Approval>, i: nat, now: real)
    requires i < |items|
    ensures StillPending(items[..i + 1], now)
         == StillPending(items[..i], now)
             + (if items[i].status == PENDING && !IsExpired(items[i], now) then [items[i]] else [])
  {
    assert items[..i + 1][..i] == items[..i];
  }

  /** The file as the loop over a snapshot leaves it: one rewrite for each overdue record, none otherwise. */
  ghost function Listed(lines: seq<Line>, items: seq<Approval>, now: real): seq<Line> {
    if items == [] then lines
    else
      var init, last := items[..|items| - 1], items[|items| - 1];
      if Overdue(last, now) then UpdateFile(Listed(lines, init, now), last.id, EXPIRED, "system", "")
          else Listed(lines, init, now)
  }

  lemma {:induction false} ListedProgress(lines: seq<Line>, i: nat, now: real)
    requires i <= |Load(lines)|
    ensures Load(Listed(lines, Load(lines)[..i], now)) == Progress(Load(lines), i, now)
  {
    var items := Load(lines);
    LoadUnique(lines);
    if i == 0 {
      ProgressEnds(items, now);
    } else {
      assert items[..i][..i - 1] == items[..i - 1];
      ListedProgress(lines, i - 1, now);
      ExpireStep(items, i - 1, now);
      UpdateRefines(Listed(lines, items[..i - 1], now), items[i - 1].id, EXPIRED, "system", "");
    }
  }

  /** Each iteration reloads and rewrites the file, and together they expire every overdue record. */
  lemma ListedExpires(lines: seq<Line>, now: real)
    ensures Load(Listed(lines, Load(lines), now)) == ExpireAll(Load(lines), now)
  {
    var items := Load(lines);
    assert items[..|items|] == items;
    ListedProgress(lines, |items|, now);
    ProgressEnds(items, now);
  }

  /** A listing that finds nothing overdue does not touch the file. */
  lemma {:induction false} IdleListingWritesNothing(lines: seq<Line>, items: seq<Approval>, now: real)
    requires forall a :: a in items ==> !Overdue(a, now)
    ensures Listed(lines, items, now) == lines
  {
    if items != [] { IdleListingWritesNothing(lines, items[..|items| - 1], now); }
  }

  /** After a listing nothing is pending past its deadline, and what was not overdue is unchanged. */
  lemma ListingLeavesNothingOverdue(items: seq<Approval>, now: real)
    ensures forall a :: a in ExpireAll(items, now) ==> !Overdue(a, now)
    ensures forall i :: 0 <= i < |items| && !Overdue(items[i], now) ==> ExpireAll(items, now)[i] == items[i]
    ensures Keeps(items, ExpireAll(items, now))
  {
  }

  /** Nothing recorded is lost: every record keeps its place, its id and its request. */
  ghost predicate Keeps(items: seq<Approval>, later: seq<Approval>) {
    && |items| <= |later|
    && forall i :: 0 <= i < |items| ==> later[i].id == items[i].id && later[i].request == items[i].request
  }

  // ---- the queue as the class it is ------------------------------------------------------

  class ApprovalQueue {
    var file: seq<Line>
    const timeout: real

    constructor (timeout: real)
      ensures file == [] && this.timeout == timeout
    {
      file := [];
      this.timeout := timeout;
    }

    method LoadAll() returns (items: seq<Approval>)
      ensures items == Load(file)
    {
      items := [];
      for i := 0 to |file|
        invariant items == Load(file[..i])
      {
        assert file[..i + 1][..i] == file[..i];
        match file[i] {
          case Malformed =>
          case Entry(a) =>
            var k := 0;
            while k < |items| && items[k].id != a.id
              invariant k <= IndexOf(items, a.id)
            {
              k := k + 1;
            }
            items := if k < |items| then items[k := a] else items + [a];
        }
      }
      assert file[..|file|] == file;
    }

    method Submit(id: string, request: Request, now: real) returns (a: Approval)
      modifies this`file
      ensures a == Approval(id, request.(createdAt := now, expiresAt := now + timeout), PENDING, None, None)
      ensures file == old(file) + [Entry(a)]
      ensures Load(file) == Put(Load(old(file)), a)
    {
      a := Approval(id, request.(createdAt := now, expiresAt := now + timeout), PENDING, None, None);
      SubmitRefines(file, a);
      file := file + [Entry(a)];
    }

    method UpdateStatus(id: string, status: string, operator: string, note: string) returns (found: bool)
      modifies this`file
      ensures file == UpdateFile(old(file), id, status, operator, note)
      ensures found == Has(Load(old(file)), id)
    {
      var items := LoadAll();
      found := false;
      var k := 0;
      while k < |items| && !found
        invariant !found ==> items == Load(file) && k <= IndexOf(items, id)
        invariant found ==> Has(Load(file), id) && items == SetStatus(Load(file), id, status, operator, note)
      {
        if items[k].id == id {
          items := items[k := items[k].(status := status, operator := Some(operator), note := Some(note))];
          found := true;
        }
        k := k + 1;
      }
      if found {
        file := Dump(items);
      }
    }

    method Approve(id: string, operator: string, note: string) returns (found: bool)
      modifies this`file
      ensures file == UpdateFile(old(file), id, APPROVED, operator, note)
      ensures Load(file) == SetStatus(Load(old(file)), id, APPROVED, operator, note)
      ensures found == Has(Load(old(file)), id)
    {
      UpdateRefines(file, id, APPROVED, operator, note);
      found := UpdateStatus(id, APPROVED, operator, note);
    }

    method Deny(id: string, operator: string, note: string) returns (found: bool)
      modifies this`file
      ensures file == UpdateFile(old(file), id, DENIED, operator, note)
      ensures Load(file) == SetStatus(Load(old(file)), id, DENIED, operator, note)
      ensures found == Has(Load(old(file)), id)
    {
      UpdateRefines(file, id, DENIED, operator, note);
      found := UpdateStatus(id, DENIED, operator, note);
    }

    /** Lists the pending records at a fixed clock; each overdue one is expired by its own reload
        and rewrite of the file, while the loop goes on over the snapshot it started from. */
    method ListPending(now: real) returns (pending: seq<Approval>)
      modifies this`file
      ensures pending == StillPending(Load(old(file)), now)
      ensures Load(file) == ExpireAll(Load(old(file)), now)
      ensures file == Listed(old(file), Load(old(file)), now)
    {
      var allItems := LoadAll();
      pending := [];
      for i := 0 to |allItems|
        invariant pending == StillPending(allItems[..i], now)
        invariant file == Listed(old(file), allItems[..i], now)
      {
        var item := allItems[i];
        StillPendingStep(allItems, i, now);
        assert allItems[..i + 1][..i] == allItems[..i];
        if item.status == PENDING {
          if IsExpired(item, now) {
            var _ := UpdateStatus(item.id, EXPIRED, "system", "");
          } else {
            pending := pending + [item];
          }
        }
      }
      assert allItems[..|allItems|] == allItems;
      ListedExpires(old(file), now);
    }

    method CheckStatus(id: string, now: real) returns (status: Option<string>)
      modifies this`file
      ensures status == StatusAt(Load(old(file)), id, now)
      ensures Load(file) == Observe(Load(old(file)), id, now)
      ensures Observe(Load(old(file)), id, now) == Load(old(file)) ==> file == old(file)
      ensures status == Some(PENDING) ==>
          Has(Load(old(file)), id) && !IsExpired(Load(old(file))[IndexOf(Load(old(file)), id)], now)
    {
      var items := LoadAll();
      var k := 0;
      while k < |items|
        invariant k <= IndexOf(items, id)
      {
        if items[k].id == id {
          if items[k].status == PENDING && IsExpired(items[k], now) {
            UpdateRefines(file, id, EXPIRED, "system", "");
            var _ := UpdateStatus(id, EXPIRED, "system", "");
            return Some(EXPIRED);
          }
          return Some(items[k].status);
        }
        k := k + 1;
      }
      return None;
    }

    /** `enforced` says whether re-running the event raised. */
    method ResumeAfterApproval(id: string, now: real, enforced: bool) returns (outcome: Option<string>)
      modifies this`file
      ensures Load(file) == Observe(Load(old(file)), id, now)
      ensures outcome == if StatusAt(Load(old(file)), id, now) == Some(APPROVED)
                         then Some(if enforced then "resumed" else "error")
                         else StatusAt(Load(old(file)), id, now)
    {
      var status := CheckStatus(id, now);
      if status != Some(APPROVED) {
        return status;
      }
      return Some(if enforced then "resumed" else "error");
    }
  }

  /** The status check_status reports. */
  function StatusAt(items: seq<Approval>, id: string, now: real): Option<string> {
    if !Has(items, id) then None
    else Some(ExpireOne(items[IndexOf(items, id)], now).status)
  }

  /** What asking for one id at a time does to the map. */
  function Observe(items: seq<Approval>, id: string, now: real): seq<Approval> {
    if Has(items, id) then items[IndexOf(items, id) := ExpireOne(items[IndexOf(items, id)], now)] else items
  }
}
