/** The file store as an object: the document file and the ledger file, changed in place. One call
    at a time; the interleaving of calls is the subject of Protocol. */
module FileStores {
  import opened Wrappers
  import opened Certificates
  import opened Policy
  import opened Authority
  import opened LedgerPaging
  import opened AuthorityDocument

  /** appendLedger: the authority check, then the duplicate tests. */
  function Appended(document: Option<AuthorityState>, ledger: seq<LedgerRecord>,
          r: LedgerRecord): Result<seq<LedgerRecord>> {
    var s :- ReadDocument(document);
    var _ :- CheckAppend(s, r);
    if !LedgerReadable(ledger) then Err(Corrupt)
    else if exists i :: 0 <= i < |ledger| && Clashes(ledger[i], r) then Err(Conflict)
    else Ok(ledger + [r])
  }

  /** update: what the document file holds afterwards, and what the caller gets. */
  function Updated(document: Option<AuthorityState>, cfg: ManagerConfig, cmd: Command, ledger: seq<LedgerRecord>,
          now: Instant): Result<AuthorityState> {
    if document.Some? && !ValidState(document.value) then Err(StateError(document.value))
    else Authority.Update(document, cfg, cmd, ledger, now)
  }

  /** The test of lookupLedger. */
  predicate SameSerialAs(x: LedgerRecord, issuer: Slug, version: int, serial: nat) {
    x.issuer == issuer && x.issuerVersion == version && x.serial == serial
  }

  predicate FirstWithSerial(ledger: seq<LedgerRecord>, issuer: Slug, version: int, serial: nat, i: int) {
    && 0 <= i < |ledger| && SameSerialAs(ledger[i], issuer, version, serial)
    && forall j :: 0 <= j < i ==> !SameSerialAs(ledger[j], issuer, version, serial)
  }

  class FileStore {
    var document: Option<AuthorityState>
    var ledger: seq<LedgerRecord>

    constructor ()
      ensures document == None && ledger == []
    {
      document := None;
      ledger := [];
    }

    method Load() returns (r: Result<AuthorityState>)
      ensures r == ReadDocument(document)
      ensures r.Ok? ==> document == Some(r.value) && ValidState(r.value)
      ensures r == Err(NotFound) <==> document.None?
    {
      if document.None? {
        return Err(NotFound);
      }
      var s := document.value;
      if !ValidState(s) {
        return Err(StateError(s));
      }
      return Ok(s);
    }

    /** readLedger: the whole file, each record validated by itself; the first invalid one ends it. */
    method ReadLedger() returns (r: Result<seq<LedgerRecord>>)
      ensures r == if LedgerReadable(ledger) then Ok(ledger) else Err(Corrupt)
    {
      hide ValidRecord;
      var out: seq<LedgerRecord> := [];
      var k := 0;
      while k < |ledger|
        invariant 0 <= k <= |ledger|
        invariant out == ledger[..k]
        invariant forall i :: 0 <= i < k ==> ValidRecord(ledger[i])
      {
        if !ValidRecord(ledger[k]) {
          return Err(Corrupt);
        }
        out := out + [ledger[k]];
        k := k + 1;
      }
      assert ledger[..k] == ledger;
      return Ok(out);
    }

    /** validateLedgerRecords, stopping at the first record it refuses. */
    method CheckRecords(s: AuthorityState, records: seq<LedgerRecord>) returns (ok: bool)
      ensures ok <==> LedgerAccepted(s, records)
    {
      var k := 0;
      while k < |records|
        invariant 0 <= k <= |records|
        invariant LedgerAccepted(s, records[..k])
      {
        if !RecordAccepted(s, records[k]) {
          return false;
        }
        assert records[..k + 1] == records[..k] + [records[k]];
        k := k + 1;
      }
      assert records[..k] == records;
      return true;
    }

    /** The document is replaced exactly when the update succeeds; the ledger never changes here. */
    method Update(cfg: ManagerConfig, cmd: Command, now: Instant) returns (r: Result<()>)
      modifies this`document
      ensures var u := Updated(old(document), cfg, cmd, ledger, now);
              && document == (if u.Ok? then Some(u.value) else old(document))
              && r == (if u.Ok? || u.error == NoMutation then Ok(()) else Err(u.error))
    {
      hide ValidState, StateError, LedgerAccepted, LedgerReadable, Authority.Mutate;
      var loaded := Load();
      if loaded.Err? && loaded.error != NotFound {
        return Err(loaded.error);
      }
      var s := if loaded.Ok? then loaded.value else EMPTY_STATE;
      if loaded.Ok? && s.spec.mode == Ledger {
        var records := ReadLedger();
        if records.Err? {
          return Err(records.error);
        }
        var accepted := CheckRecords(s, records.value);
        if !accepted {
          return Err(Corrupt);
        }
      }
      var before := s.revision;
      var working := new Document(s);
      var mutated := working.Mutate(cfg, cmd, ledger, now);
      if mutated.Err? {
        return if mutated.error == NoMutation then Ok(()) else Err(mutated.error);
      }
      if working.spec.id == "" {
        return Err(Corrupt);
      }
      if working.revision <= before {
        working.SetRevision(before + 1);
      }
      if !ValidState(working.View()) {
        return Err(StateError(working.View()));
      }
      document := Some(working.View());
      return Ok(());
    }

    /** A record is appended exactly when it passes every check, at the end of the ledger; otherwise
        nothing changes. */
    method AppendLedger(record: LedgerRecord) returns (r: Result<()>)
      modifies this`ledger
      ensures var a := Appended(document, old(ledger), record);
              && ledger == (if a.Ok? then old(ledger) + [record] else old(ledger))
              && r == (if a.Ok? then Ok(()) else Err(a.error))
    {
      hide ValidState, CheckAppend, LedgerReadable;
      var loaded := Load();
      if loaded.Err? {
        return Err(loaded.error);
      }
      var checked := CheckAppend(loaded.value, record);
      if checked.Err? {
        return Err(checked.error);
      }
      var read := ReadLedger();
      if read.Err? {
        return Err(read.error);
      }
      var k := 0;
      while k < |ledger|
        invariant 0 <= k <= |ledger|
        invariant ledger == old(ledger)
        invariant forall i :: 0 <= i < k ==> !Clashes(ledger[i], record)
      {
        if Clashes(ledger[k], record) {
          return Err(Conflict);
        }
        k := k + 1;
      }
      ledger := ledger + [record];
      return Ok(());
    }

    /** A page is the next records from the cursor, at most limit of them (100 when there is no
        limit) and at least one unless the ledger is read; its own cursor is where it ends, given
        exactly when records remain. A ledger with an invalid record has no pages. */
    method ListLedger(start: int, limit: int) returns (r: Result<Page>)
      ensures r == Err(Corrupt) <==> !LedgerReadable(ledger)
      ensures r == Err(Validation) <==> LedgerReadable(ledger) && (start < 0 || start > |ledger|)
      ensures r.Ok? <==> LedgerReadable(ledger) && 0 <= start <= |ledger|
      ensures r.Ok? ==>
              var page, n := r.value, |r.value.records|;
              && ledger[..start] + page.records <= ledger
              && n <= (if limit <= 0 then 100 else limit)
              && (n == 0 <==> start == |ledger|)
              && (start + n < |ledger| ==> n == if limit <= 0 then 100 else limit)
              && page.next == if start + n < |ledger| then Some(start + n) else None
      ensures r == LedgerPaging.ListLedger(ledger, start, limit)
    {
      hide LedgerReadable;
      var read := ReadLedger();
      if read.Err? {
        return Err(read.error);
      }
      var records := read.value;
      if start < 0 || start > |records| {
        return Err(Validation);
      }
      var size := limit;
      if size <= 0 {
        size := 100;
      }
      var end := start + size;
      if end > |records| {
        end := |records|;
      }
      var next := None;
      if end < |records| {
        next := Some(end);
      }
      return Ok(Page(records[start..end], next));
    }

    /** The loop of validateLedger: following the cursors to the end yields every record once, in
        order, whatever the page size; a ledger with an invalid record is refused. */
    method ReadPages(limit: int) returns (r: Result<seq<LedgerRecord>>)
      ensures r == if LedgerReadable(ledger) then Ok(ledger) else Err(Corrupt)
    {
      hide LedgerReadable;
      var all: seq<LedgerRecord> := [];
      var cursor := 0;
      while true
        invariant 0 <= cursor <= |ledger|
        invariant all == ledger[..cursor]
        decreases |ledger| - cursor
      {
        var page := ListLedger(cursor, limit);
        if page.Err? {
          return Err(page.error);
        }
        PageExtends(ledger, cursor, limit);
        all := all + page.value.records;
        if page.value.next.None? {
          assert all == ledger;
          return Ok(all);
        }
        cursor := page.value.next.value;
      }
    }

    /** The first record with this serial under the issuer version, if there is one; a ledger with an
        invalid record is refused before it is searched. */
    method LookupLedger(issuer: Slug, version: int, serial: nat) returns (r: Result<LedgerRecord>)
      ensures r == Err(Corrupt) <==> !LedgerReadable(ledger)
      ensures r == Err(NotFound) <==>
              LedgerReadable(ledger) && forall i :: 0 <= i < |ledger| ==> !SameSerialAs(ledger[i], issuer, version, serial)
      ensures r.Err? ==> r.error in {Corrupt, NotFound}
      ensures r.Ok? ==> exists i :: FirstWithSerial(ledger, issuer, version, serial, i) && r.value == ledger[i]
    {
      hide LedgerReadable, SameSerialAs;
      var read := ReadLedger();
      if read.Err? {
        return Err(read.error);
      }
      var records := read.value;
      var k := 0;
      while k < |records|
        invariant 0 <= k <= |records|
        invariant forall i :: 0 <= i < k ==> !SameSerialAs(records[i], issuer, version, serial)
      {
        if SameSerialAs(records[k], issuer, version, serial) {
          assert FirstWithSerial(ledger, issuer, version, serial, k);
          return Ok(records[k]);
        }
        k := k + 1;
      }
      return Err(NotFound);
    }
  }
}
