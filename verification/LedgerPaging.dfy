/** Reading the ledger page by page (listLedger) and the deadline scan over pages. */
module LedgerPaging {
  import opened Wrappers
  import opened Certificates
  import opened Authority

  const PAGE_SIZE: nat := 500

  /** next is None on the last page; otherwise it is the cursor to continue from. */
  datatype Page = Page(records: seq<LedgerRecord>, next: Option<nat>)

  /** listLedger, which reads and validates the whole file first. start is the parsed cursor, 0 for the empty one. */
  function ListLedger(ledger: seq<LedgerRecord>, start: int, limit: int): Result<Page> {
    if !LedgerReadable(ledger) then Err(Corrupt)
    else if start < 0 || start > |ledger| then Err(Validation)
    else
      var size := if limit <= 0 then 100 else limit;
      var end := if start + size > |ledger| then |ledger| else start + size;
      Ok(Page(ledger[start..end], if end < |ledger| then Some(end) else None))
  }

  /** The inner loop of ledgerTrustDeadline over one page. */
  function ScanDeadline(s: AuthorityState, page: seq<LedgerRecord>, generation: int, deadline: Instant): Instant {
    if page == [] then deadline
    else
      var before := ScanDeadline(s, page[..|page| - 1], generation, deadline);
      var r := page[|page| - 1];
      if UnderRoot(s, r, generation) && r.expiresAt + CLOCK_SKEW > before then r.expiresAt + CLOCK_SKEW else before
  }

  /** Scanning in two parts is scanning the whole. */
  lemma {:induction false} ScanAppend(s: AuthorityState, a: seq<LedgerRecord>, b: seq<LedgerRecord>, generation: int)
    ensures LedgerDeadline(s, a + b, generation) == ScanDeadline(s, b, generation, LedgerDeadline(s, a, generation))
    decreases |b|
  {
    if b == [] {
      assert a + b == a;
    } else {
      var init := b[..|b| - 1];
      ScanAppend(s, a, init, generation);
      assert (a + b)[..|a + b| - 1] == a + init;
    }
  }

  /** One more page of a readable ledger: the records read so far stay a prefix of the ledger, none
      is skipped or repeated, every page but the last moves forward, and the last one completes the
      ledger. */
  lemma PageExtends(ledger: seq<LedgerRecord>, start: nat, limit: int)
    requires start <= |ledger|
    ensures ListLedger(ledger, start, limit).Ok? <==> LedgerReadable(ledger)
    ensures var r := ListLedger(ledger, start, limit);
            r.Ok? ==>
            && ledger[..start] + r.value.records == ledger[..start + |r.value.records|]
            && (r.value.next.Some? ==> r.value.next.value == start + |r.value.records| && start < r.value.next.value < |ledger|)
            && (r.value.next.None? ==> start + |r.value.records| == |ledger|)
  {
  }

  // ----- a ledger that grows between pages -----

  function Concat(pages: seq<seq<LedgerRecord>>): seq<LedgerRecord> {
    if pages == [] then [] else Concat(pages[..|pages| - 1]) + pages[|pages| - 1]
  }

  /** Page i was read from ledgers[i] with the cursor the pages before it led to; each ledger extends
      the one before, and the last page is the one without a cursor. */
  predicate IsReading(ledgers: seq<seq<LedgerRecord>>, pages: seq<seq<LedgerRecord>>, limit: int) {
    && |ledgers| == |pages|
    && (forall i, j :: 0 <= i < j < |ledgers| ==> ledgers[i] <= ledgers[j])
    && (forall i :: 0 <= i < |pages| ==>
          var r := ListLedger(ledgers[i], |Concat(pages[..i])|, limit);
          r.Ok? && r.value.records == pages[i] && (r.value.next.None? <==> i == |pages| - 1))
  }

  /** One page, read where the prefix read so far ends. */
  lemma PageAppends(read: seq<LedgerRecord>, ledger: seq<LedgerRecord>, page: seq<LedgerRecord>, limit: int)
    requires read <= ledger
    requires var r := ListLedger(ledger, |read|, limit);
             r.Ok? && r.value.records == page
    ensures read + page <= ledger
    ensures ListLedger(ledger, |read|, limit).value.next.None? ==> read + page == ledger
  {
    PageExtends(ledger, |read|, limit);
    assert ledger[..|read|] == read;
  }

  lemma {:induction false} ReadingIsPrefix(ledgers: seq<seq<LedgerRecord>>, pages: seq<seq<LedgerRecord>>, limit: int, n: nat)
    requires IsReading(ledgers, pages, limit) && n <= |pages|
    ensures n > 0 ==> Concat(pages[..n]) <= ledgers[n - 1]
    ensures n > 0 && n == |pages| ==> Concat(pages[..n]) == ledgers[n - 1]
  {
    if n == 0 {
    } else {
      ReadingIsPrefix(ledgers, pages, limit, n - 1);
      hide ListLedger;
      assert pages[..n][..n - 1] == pages[..n - 1];
      var read := Concat(pages[..n - 1]);
      if n > 1 {
        PrefixGrows(read, ledgers[n - 2], ledgers[n - 1]);
      }
      PageAppends(read, ledgers[n - 1], pages[n - 1], limit);
    }
  }

  lemma PrefixGrows(a: seq<LedgerRecord>, b: seq<LedgerRecord>, c: seq<LedgerRecord>)
    requires a <= b <= c
    ensures a <= c
  {
  }

  /** Records may be appended between pages: what has been read in the end is the ledger as it was
      when the last page was read, nothing twice and nothing skipped. */
  lemma GrowingLedgerIsRead(ledgers: seq<seq<LedgerRecord>>, pages: seq<seq<LedgerRecord>>, limit: int)
    requires IsReading(ledgers, pages, limit) && pages != []
    ensures Concat(pages) == ledgers[|ledgers| - 1]
  {
    ReadingIsPrefix(ledgers, pages, limit, |pages|);
    assert pages[..|pages|] == pages;
  }
}
