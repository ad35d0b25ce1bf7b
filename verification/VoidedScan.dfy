/**
  The per-token scan of app/services/google/voided-purchases.ts.

  The upstream list is a function from page cursor to reply, so it does not change during one scan.
  The clock is a function of how often it has been read, and is arbitrary.
 */
module VoidedScan {
  import opened Wrappers

  const VOIDED_SCAN_MAX_PAGES: nat := 50
  const VOIDED_SCAN_BUDGET_MS: int := 25_000
  /** Half the page cap, rounded up. */
  const VOIDED_SCAN_RATE_LIMIT_COST: nat := (VOIDED_SCAN_MAX_PAGES + 1) / 2

  type Cursor = Option<string>

  /** One raw list entry: its token field if that is a string at all, and everything else. */
  datatype Entry = Entry(rawPurchaseToken: Option<string>, rest: string)

  datatype Page = Page(entries: seq<Entry>, rawNextPageToken: Option<string>)

  datatype Reply = Listed(page: Page) | Fault(error: string)

  type Upstream = Cursor -> Reply

  datatype Answer = Answer(voided: bool, voidedPurchase: Option<Entry>, pagesScanned: nat, truncated: bool)

  /** What a scan returns or throws, and how many list calls it started. */
  datatype Outcome = Outcome(result: Result<Answer, string>, calls: nat)

  /** Mistyped and empty strings both read as absent. */
  function AsString(v: Option<string>): Option<string> {
    if v == Some("") then None else v
  }

  function NextPageTokenOf(page: Page): Cursor { AsString(page.rawNextPageToken) }

  predicate Matches(e: Entry, token: string) { AsString(e.rawPurchaseToken) == Some(token) }

  function FindMatch(entries: seq<Entry>, token: string): (m: Option<Entry>)
    ensures m.None? <==> forall e <- entries :: !Matches(e, token)
    ensures m.Some? ==> m.value in entries && Matches(m.value, token)
  {
    if entries == [] then None
    else if Matches(entries[0], token) then Some(entries[0])
    else FindMatch(entries[1..], token)
  }

  function Inconclusive(pages: nat): Result<Answer, string> { Ok(Answer(false, None, pages, true)) }

  /** The scan from page number `page` on, having arrived at `cursor`. */
  function ScanFrom(u: Upstream, token: string, clock: nat -> int, page: nat, cursor: Cursor): Outcome
    requires page <= VOIDED_SCAN_MAX_PAGES
    decreases VOIDED_SCAN_MAX_PAGES - page
  {
    if page == VOIDED_SCAN_MAX_PAGES then Outcome(Inconclusive(page), page) else
    match u(cursor)
    case Fault(e) => Outcome(Err(e), page + 1)
    case Listed(p) =>
      var found := FindMatch(p.entries, token);
      var next := NextPageTokenOf(p);
      if found.Some? then Outcome(Ok(Answer(true, found, page + 1, false)), page + 1)
      else if next.None? then Outcome(Ok(Answer(false, None, page + 1, false)), page + 1)
      else if next == cursor || OverBudget(clock, page + 1) then Outcome(Inconclusive(page + 1), page + 1)
      else ScanFrom(u, token, clock, page + 1, next)
  }

  function Scan(u: Upstream, token: string, clock: nat -> int): Outcome {
    ScanFrom(u, token, clock, 0, None)
  }

  /** Reading 0 fixes the deadline; reading p is the check after page p. */
  predicate OverBudget(clock: nat -> int, reading: nat) {
    clock(reading) >= clock(0) + VOIDED_SCAN_BUDGET_MS
  }

  /** `findGoogleVoidedPurchase` once its client is prepared. */
  method FindGoogleVoidedPurchase(u: Upstream, token: string, clock: nat -> int)
    returns (result: Result<Answer, string>)
    ensures result == Scan(u, token, clock).result
  {
    var pageToken: Cursor := None;
    var pagesScanned := 0;
    var deadline := clock(0) + VOIDED_SCAN_BUDGET_MS;
    var page := 0;
    while page < VOIDED_SCAN_MAX_PAGES
      invariant 0 <= page == pagesScanned <= VOIDED_SCAN_MAX_PAGES
      invariant Scan(u, token, clock) == ScanFrom(u, token, clock, page, pageToken)
    {
      var reply := u(pageToken);
      if reply.Fault? { return Err(reply.error); }
      pagesScanned := pagesScanned + 1;
      var found := FindMatch(reply.page.entries, token);
      if found.Some? { return Ok(Answer(true, found, pagesScanned, false)); }
      var next := NextPageTokenOf(reply.page);
      if next.Some? && next == pageToken { break; }
      if next.None? { return Ok(Answer(false, None, pagesScanned, false)); }
      pageToken := next;
      if clock(pagesScanned) >= deadline { break; }
      page := page + 1;
    }
    return Ok(Answer(false, None, pagesScanned, true));
  }

  // ---------------------------------------------------------------------------------------------
  // The unbounded scan: the whole page chain, however long.
  // ---------------------------------------------------------------------------------------------

  datatype Position = At(cursor: Cursor) | Ended | Failed(error: string)

  /** Where the chain stands after n pages: at a cursor, past its last page, or at a fault. */
  ghost function Chain(u: Upstream, n: nat): Position {
    if n == 0 then At(None) else
    match Chain(u, n - 1)
    case At(c) =>
      match u(c) {
        case Fault(e) => Failed(e)
        case Listed(p) =>
          if p.rawNextPageToken.None? || p.rawNextPageToken.value == "" then Ended else At(p.rawNextPageToken)
      }
    case stopped => stopped
  }

  ghost predicate PageAt(u: Upstream, n: nat) { Chain(u, n).At? && u(Chain(u, n).cursor).Listed? }

  ghost function Entries(u: Upstream, n: nat): seq<Entry>
    requires PageAt(u, n)
  {
    u(Chain(u, n).cursor).page.entries
  }

  /** Page n is reached and lists the token; the empty token matches nothing. */
  ghost predicate MatchAt(u: Upstream, n: nat, token: string) {
    PageAt(u, n) && token != "" && exists e <- Entries(u, n) :: e.rawPurchaseToken == Some(token)
  }

  /** `e` is the first entry with the token. */
  ghost predicate FirstMatch(entries: seq<Entry>, token: string, e: Entry) {
    exists i | 0 <= i < |entries| ::
      && entries[i] == e && e.rawPurchaseToken == Some(token)
      && forall j | 0 <= j < i :: entries[j].rawPurchaseToken != Some(token)
  }

  /** The answer no budget can change. */
  ghost predicate VoidedInWholeChain(u: Upstream, token: string) {
    exists n :: MatchAt(u, n, token)
  }

  /** The chain has a last page within the page cap, without a fault on the way. */
  ghost predicate ReadToTheEnd(u: Upstream) {
    exists n: nat :: 0 < n <= 50 && Chain(u, n).Ended?
  }

  /** Page n answers, has no match and names a further page. */
  ghost predicate Unhelpful(u: Upstream, n: nat, token: string) {
    PageAt(u, n) && !MatchAt(u, n, token) && Chain(u, n + 1).At?
  }

  /** A reason to stop after p pages with list left unread. */
  ghost predicate GivesUpAfter(u: Upstream, token: string, clock: nat -> int, p: nat)
    requires p > 0
  {
    && (forall j | 0 <= j < p :: Unhelpful(u, j, token))
    && (Chain(u, p) == Chain(u, p - 1) || clock(p) >= clock(0) + 25_000 || p == 50)
  }

  /** The scan comes to page n, before which nothing ended it, and the call for it fails. */
  ghost predicate FaultsAt(u: Upstream, token: string, clock: nat -> int, n: nat, e: string) {
    && n < 50
    && (forall j | 0 <= j < n :: Unhelpful(u, j, token))
    && (forall p | 0 < p <= n :: !GivesUpAfter(u, token, clock, p))
    && Chain(u, n).At? && u(Chain(u, n).cursor) == Fault(e)
  }

  lemma {:induction false} FindMatchIsFirst(entries: seq<Entry>, token: string)
    ensures var m := FindMatch(entries, token);
            && (m.Some? <==> token != "" && exists e <- entries :: e.rawPurchaseToken == Some(token))
            && (m.Some? ==> FirstMatch(entries, token, m.value))
  {
    if entries != [] && !Matches(entries[0], token) {
      FindMatchIsFirst(entries[1..], token);
      if FindMatch(entries[1..], token).Some? {
        var m := FindMatch(entries[1..], token).value;
        var i :| 0 <= i < |entries[1..]| && entries[1..][i] == m && m.rawPurchaseToken == Some(token)
          && forall j | 0 <= j < i :: entries[1..][j].rawPurchaseToken != Some(token);
        assert entries[i + 1] == m;
        forall j | 0 <= j < i + 1 ensures entries[j].rawPurchaseToken != Some(token) {
          if j > 0 { assert entries[j] == entries[1..][j - 1]; }
        }
      }
    }
  }

  /** How the scan's own step reads a page is how the chain reads it. */
  lemma PageStep(u: Upstream, n: nat, token: string)
    requires PageAt(u, n)
    ensures var p := u(Chain(u, n).cursor).page;
            && (FindMatch(p.entries, token).Some? <==> MatchAt(u, n, token))
            && (FindMatch(p.entries, token).Some? ==> FirstMatch(p.entries, token, FindMatch(p.entries, token).value))
            && Chain(u, n + 1) == if NextPageTokenOf(p).None? then Ended else At(NextPageTokenOf(p))
  {
    FindMatchIsFirst(u(Chain(u, n).cursor).page.entries, token);
  }

  lemma {:induction false} ChainStaysStopped(u: Upstream, p: nat, n: nat)
    requires p <= n && !Chain(u, p).At?
    ensures Chain(u, n) == Chain(u, p)
  {
    if p < n { ChainStaysStopped(u, p, n - 1); }
  }

  /**
    What an answer means. Voided: the purchase reported is the first match of the first page that
    has one. Not voided and not truncated: the chain was read to its end without a fault, and no page of
    it has one. Truncated: there was a reason to give up after exactly the pages scanned.
   */
  ghost predicate TrueAnswer(u: Upstream, token: string, clock: nat -> int, a: Answer) {
    if a.voided then
      && !a.truncated
      && a.pagesScanned > 0
      && MatchAt(u, a.pagesScanned - 1, token)
      && a.voidedPurchase.Some? && FirstMatch(Entries(u, a.pagesScanned - 1), token, a.voidedPurchase.value)
      && forall j | 0 <= j < a.pagesScanned - 1 :: !MatchAt(u, j, token)
    else
      && a.voidedPurchase.None?
      && if a.truncated then
           0 < a.pagesScanned <= 50 && GivesUpAfter(u, token, clock, a.pagesScanned)
         else
           0 < a.pagesScanned <= 50 && Chain(u, a.pagesScanned).Ended? && !VoidedInWholeChain(u, token)
  }

  /** What any outcome means: an error is the fault of the page that the scan came to. */
  ghost predicate TrueOutcome(u: Upstream, token: string, clock: nat -> int, r: Result<Answer, string>) {
    match r
    case Ok(a) => TrueAnswer(u, token, clock, a)
    case Err(e) => exists n: nat :: FaultsAt(u, token, clock, n, e)
  }

  lemma {:induction false} SuffixAnswers(u: Upstream, token: string, clock: nat -> int, page: nat, cursor: Cursor)
    requires page <= VOIDED_SCAN_MAX_PAGES && Chain(u, page) == At(cursor)
    requires forall j | 0 <= j < page :: Unhelpful(u, j, token)
    requires forall p | 0 < p < page :: !GivesUpAfter(u, token, clock, p)
    requires page > 0 ==> (GivesUpAfter(u, token, clock, page) <==> page == VOIDED_SCAN_MAX_PAGES)
    ensures TrueOutcome(u, token, clock, ScanFrom(u, token, clock, page, cursor).result)
    decreases VOIDED_SCAN_MAX_PAGES - page
  {
    forall j | 0 <= j < page ensures !MatchAt(u, j, token) {
      assert Unhelpful(u, j, token);
    }
    if page < VOIDED_SCAN_MAX_PAGES {
      if u(cursor).Fault? {
        assert FaultsAt(u, token, clock, page, u(cursor).error);
      } else {
        PageStep(u, page, token);
        var p := u(cursor).page;
        var next := NextPageTokenOf(p);
        if FindMatch(p.entries, token).None? {
          if next.None? {
            forall n: nat ensures !MatchAt(u, n, token) {
              if n > page { ChainStaysStopped(u, page + 1, n); }
            }
          } else {
            assert Unhelpful(u, page, token);
            if next != cursor && !OverBudget(clock, page + 1) {
              SuffixAnswers(u, token, clock, page + 1, next);
            }
          }
        }
      }
    }
  }

  /**
    Refinement of the unbounded scan: an answer that is not truncated is the answer for the whole
    page chain, either a match or a chain read to its end, and a truncated one never claims "voided".
   */
  lemma ScanRefinesUnbounded(u: Upstream, token: string, clock: nat -> int)
    ensures var r := Scan(u, token, clock).result;
            r.Ok? ==> && TrueAnswer(u, token, clock, r.value)
                      && (!r.value.truncated ==> (r.value.voided <==> VoidedInWholeChain(u, token)))
                      && (!r.value.truncated && !r.value.voided ==> ReadToTheEnd(u))
                      && (r.value.truncated ==> !r.value.voided)
  {
    SuffixAnswers(u, token, clock, 0, None);
  }

  lemma {:induction false} FaultForcesError(u: Upstream, token: string, clock: nat -> int, page: nat, cursor: Cursor, n: nat, e: string)
    requires page <= n && Chain(u, page) == At(cursor) && FaultsAt(u, token, clock, n, e)
    ensures ScanFrom(u, token, clock, page, cursor).result == Err(e)
    decreases n - page
  {
    if page < n {
      assert Unhelpful(u, page, token);
      PageStep(u, page, token);
      assert forall j | 0 <= j < page + 1 :: Unhelpful(u, j, token);
      assert !GivesUpAfter(u, token, clock, page + 1);
      FaultForcesError(u, token, clock, page + 1, NextPageTokenOf(u(cursor).page), n, e);
    }
  }

  /** The scan fails exactly when it comes to a page whose call fails, and with that error; otherwise it answers. */
  lemma FailsIff(u: Upstream, token: string, clock: nat -> int, e: string)
    ensures Scan(u, token, clock).result == Err(e) <==> exists n: nat :: FaultsAt(u, token, clock, n, e)
  {
    SuffixAnswers(u, token, clock, 0, None);
    if n: nat :| FaultsAt(u, token, clock, n, e) {
      FaultForcesError(u, token, clock, 0, None, n, e);
    }
  }

  lemma {:induction false} ReasonForcesTruncation(u: Upstream, token: string, clock: nat -> int, page: nat, cursor: Cursor, p: nat)
    requires page < p <= 50 && Chain(u, page) == At(cursor)
    requires GivesUpAfter(u, token, clock, p)
    ensures var r := ScanFrom(u, token, clock, page, cursor).result; r.Ok? && r.value.truncated
    decreases p - page
  {
    assert Unhelpful(u, page, token);
    PageStep(u, page, token);
    var next := NextPageTokenOf(u(cursor).page);
    if next != cursor && !OverBudget(clock, page + 1) && page + 1 < p {
      ReasonForcesTruncation(u, token, clock, page + 1, next, p);
    }
  }

  /**
    A scan is truncated exactly when there is a page count within the cap at which it must give
    up: a cursor that repeats itself, a deadline passed, or the page cap, with every page so far
    unhelpful.
   */
  lemma TruncatedIff(u: Upstream, token: string, clock: nat -> int)
    ensures var r := Scan(u, token, clock).result;
            (r.Ok? && r.value.truncated
             <==> exists p :: 0 < p <= 50 && GivesUpAfter(u, token, clock, p))
  {
    SuffixAnswers(u, token, clock, 0, None);
    if p :| 0 < p <= 50 && GivesUpAfter(u, token, clock, p) {
      ReasonForcesTruncation(u, token, clock, 0, None, p);
    }
  }

  /** A chain of at most 50 pages without a fault, read within budget, with no cursor repeated, gets the true answer. */
  lemma ShortChainIsConclusive(u: Upstream, token: string, clock: nat -> int, length: nat)
    requires 0 < length <= 50 && Chain(u, length).Ended?
    requires forall p | 0 < p < length :: Chain(u, p) != Chain(u, p - 1) && clock(p) < clock(0) + 25_000
    ensures var r := Scan(u, token, clock).result;
            r.Ok? && !r.value.truncated && (r.value.voided <==> VoidedInWholeChain(u, token))
  {
    TruncatedIff(u, token, clock);
    ScanRefinesUnbounded(u, token, clock);
    if p :| 0 < p <= 50 && GivesUpAfter(u, token, clock, p) {
      assert Unhelpful(u, p - 1, token);
      if p >= length { ChainStaysStopped(u, length, p); }
    }
    if Scan(u, token, clock).result.Err? {
      var e := Scan(u, token, clock).result.error;
      FailsIff(u, token, clock, e);
      var n: nat :| FaultsAt(u, token, clock, n, e);
      if n < length { ChainStaysStopped(u, n + 1, length); } else { ChainStaysStopped(u, length, n); }
    }
  }

  /** At most 50 calls start, and none after the first once a deadline check has failed. */
  lemma {:induction false} CallsAreBounded(u: Upstream, token: string, clock: nat -> int, page: nat, cursor: Cursor)
    requires page <= VOIDED_SCAN_MAX_PAGES
    ensures var o := ScanFrom(u, token, clock, page, cursor);
            && page <= o.calls <= 50
            && (page < VOIDED_SCAN_MAX_PAGES ==> page < o.calls)
            && (o.result.Ok? ==> o.result.value.pagesScanned == o.calls)
            && (forall i | page < i < o.calls :: clock(i) < clock(0) + 25_000)
    decreases VOIDED_SCAN_MAX_PAGES - page
  {
    if page < VOIDED_SCAN_MAX_PAGES && u(cursor).Listed? {
      var next := NextPageTokenOf(u(cursor).page);
      if FindMatch(u(cursor).page.entries, token).None? && next.Some?
         && next != cursor && !OverBudget(clock, page + 1) {
        CallsAreBounded(u, token, clock, page + 1, next);
      }
    }
  }
}
