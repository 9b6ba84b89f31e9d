/** Enumerating the credit contract page by page, against a server that may answer anything. */
module OnChainEnumeration {
  import opened Wrappers

  datatype Error = Unanswered(message: string) | TooMany | NotAdvancing | DuplicateBorrower(wallet: string)

  datatype ChainRecord = ChainRecord(
    id: string, walletAddress: string, creditLimit: string, availableCredit: string,
    interestRateBps: int, status: string)

  datatype Entry = Entry(cursor: int, record: ChainRecord)

  const ENUMERATION_PAGE_LIMIT: nat := 100
  const MAX_ENUMERATED_CREDIT_RECORDS: nat := 10_000

  /** What the n-th page request is answered; it may depend on anything. */
  type Server = (nat, Option<int>) -> Result<seq<Entry>, Error>

  /** The enumeration from request n on, and how many requests are made in all. */
  function Enumerate(server: Server, n: nat, startAfter: Option<int>, got: seq<Entry>): (Result<seq<Entry>, Error>, nat)
    requires |got| <= MAX_ENUMERATED_CREDIT_RECORDS
    decreases MAX_ENUMERATED_CREDIT_RECORDS - |got|
  {
    match server(n, startAfter)
    case Err(e) => (Err(e), n + 1)
    case Ok(page) =>
      var all := got + page;
      if |all| > MAX_ENUMERATED_CREDIT_RECORDS then (Err(TooMany), n + 1)
      else if |page| < ENUMERATION_PAGE_LIMIT then (Ok(all), n + 1)
      else
        var next := page[|page| - 1].cursor;
        if startAfter.Some? && next <= startAfter.value then (Err(NotAdvancing), n + 1)
        else Enumerate(server, n + 1, Some(next), all)
  }

  function Records(entries: seq<Entry>): (r: seq<ChainRecord>)
    ensures |r| == |entries|
    ensures forall k :: 0 <= k < |r| ==> r[k] == entries[k].record
  {
    seq(|entries|, k requires 0 <= k < |entries| => entries[k].record)
  }

  ghost predicate DistinctBorrowers(entries: seq<Entry>) {
    forall i, j :: 0 <= i < j < |entries| ==> entries[i].record.walletAddress != entries[j].record.walletAddress
  }

  /** Fails on the first borrower seen before. */
  method AssertUniqueBorrowers(entries: seq<Entry>) returns (duplicate: Option<string>)
    ensures duplicate.None? <==> DistinctBorrowers(entries)
    ensures duplicate.Some? ==> exists i, j :: 0 <= i < j < |entries| && entries[i].record.walletAddress
                                               == duplicate.value == entries[j].record.walletAddress
  {
    var seen: set<string> := {};
    var i := 0;
    while i < |entries|
      invariant 0 <= i <= |entries|
      invariant seen == set k | 0 <= k < i :: entries[k].record.walletAddress
      invariant DistinctBorrowers(entries[..i])
    {
      var wallet := entries[i].record.walletAddress;
      if wallet in seen {
        return Some(wallet);
      }
      seen := seen + {wallet};
      i := i + 1;
    }
    assert entries[..i] == entries;
    return None;
  }

  method FetchAllCreditRecords(server: Server) returns (result: Result<seq<ChainRecord>, Error>, requests: nat)
    ensures var (fetched, made) := Enumerate(server, 0, None, []);
            && requests == made
            && (fetched.Err? ==> result == Err(fetched.error))
            && (fetched.Ok? && DistinctBorrowers(fetched.value) ==> result == Ok(Records(fetched.value)))
            && (fetched.Ok? && !DistinctBorrowers(fetched.value) ==> result.Err?)
  {
    var records: seq<Entry> := [];
    var startAfter: Option<int> := None;
    requests := 0;
    while true
      invariant |records| <= MAX_ENUMERATED_CREDIT_RECORDS
      invariant Enumerate(server, requests, startAfter, records) == Enumerate(server, 0, None, [])
      decreases MAX_ENUMERATED_CREDIT_RECORDS - |records|
    {
      var answer := server(requests, startAfter);
      requests := requests + 1;
      if answer.Err? {
        return Err(answer.error), requests;
      }
      var page := answer.value;
      records := records + page;
      if |records| > MAX_ENUMERATED_CREDIT_RECORDS {
        return Err(TooMany), requests;
      }
      if |page| < ENUMERATION_PAGE_LIMIT {
        break;
      }
      var next := page[|page| - 1].cursor;
      if startAfter.Some? && next <= startAfter.value {
        return Err(NotAdvancing), requests;
      }
      startAfter := Some(next);
    }
    var duplicate := AssertUniqueBorrowers(records);
    if duplicate.Some? {
      return Err(DuplicateBorrower(duplicate.value)), requests;
    }
    return Ok(Records(records)), requests;
  }

  // ---------------------------------------------------------------------------------------
  // Any server
  // ---------------------------------------------------------------------------------------

  /** Each further request needs a full page, and only a hundred full pages fit. */
  lemma {:induction false} RequestsFrom(server: Server, n: nat, startAfter: Option<int>, got: seq<Entry>)
    requires |got| <= MAX_ENUMERATED_CREDIT_RECORDS
    ensures ENUMERATION_PAGE_LIMIT * (Enumerate(server, n, startAfter, got).1 - n - 1)
            <= MAX_ENUMERATED_CREDIT_RECORDS - |got|
    decreases MAX_ENUMERATED_CREDIT_RECORDS - |got|
  {
    var answer := server(n, startAfter);
    if answer.Ok? && |got + answer.value| <= MAX_ENUMERATED_CREDIT_RECORDS && |answer.value| >= ENUMERATION_PAGE_LIMIT {
      var next := answer.value[|answer.value| - 1].cursor;
      if !(startAfter.Some? && next <= startAfter.value) {
        RequestsFrom(server, n + 1, Some(next), got + answer.value);
      }
    }
  }

  /** Whatever the server answers, enumeration ends within 101 requests. */
  lemma RequestsAreBounded(server: Server)
    ensures 1 <= Enumerate(server, 0, None, []).1 <= 101
  {
    RequestsFrom(server, 0, None, []);
    MakesProgress(server, 0, None, []);
  }

  lemma {:induction false} MakesProgress(server: Server, n: nat, startAfter: Option<int>, got: seq<Entry>)
    requires |got| <= MAX_ENUMERATED_CREDIT_RECORDS
    ensures Enumerate(server, n, startAfter, got).1 > n
    decreases MAX_ENUMERATED_CREDIT_RECORDS - |got|
  {
    var answer := server(n, startAfter);
    if answer.Ok? && |got + answer.value| <= MAX_ENUMERATED_CREDIT_RECORDS && |answer.value| >= ENUMERATION_PAGE_LIMIT {
      var next := answer.value[|answer.value| - 1].cursor;
      if !(startAfter.Some? && next <= startAfter.value) {
        MakesProgress(server, n + 1, Some(next), got + answer.value);
      }
    }
  }

  /** The pages of an enumeration that succeeds: every request but the first asks for what follows
      the last cursor received, all pages but the last are full and move the cursor forward, and
      the last is short. */
  ghost predicate Answered(server: Server, n: nat, startAfter: Option<int>, pages: seq<seq<Entry>>)
    decreases |pages|
  {
    && pages != [] && server(n, startAfter) == Ok(pages[0])
    && if |pages| == 1 then |pages[0]| < 100
       else
         && |pages[0]| >= 100
         && var last := pages[0][|pages[0]| - 1].cursor;
            && (startAfter.Some? ==> startAfter.value < last)
            && Answered(server, n + 1, Some(last), pages[1..])
  }

  ghost function Joined(pages: seq<seq<Entry>>): seq<Entry> {
    if pages == [] then [] else pages[0] + Joined(pages[1..])
  }

  lemma {:induction false} PagesOf(server: Server, n: nat, startAfter: Option<int>, got: seq<Entry>, all: seq<Entry>)
    returns (pages: seq<seq<Entry>>)
    requires |got| <= MAX_ENUMERATED_CREDIT_RECORDS && Enumerate(server, n, startAfter, got).0 == Ok(all)
    ensures Answered(server, n, startAfter, pages) && all == got + Joined(pages) && |all| <= 10_000
    decreases MAX_ENUMERATED_CREDIT_RECORDS - |got|
  {
    var page := server(n, startAfter).value;
    if |page| < 100 {
      pages := [page];
      assert Joined(pages) == page + [] == page;
    } else {
      var more := PagesOf(server, n + 1, Some(page[|page| - 1].cursor), got + page, all);
      pages := [page] + more;
      assert pages[1..] == more;
      assert got + page + Joined(more) == got + (page + Joined(more));
    }
  }

  lemma {:induction false} PagesSuffice(
    server: Server, n: nat, startAfter: Option<int>, got: seq<Entry>, pages: seq<seq<Entry>>)
    requires Answered(server, n, startAfter, pages) && |got + Joined(pages)| <= 10_000
    ensures Enumerate(server, n, startAfter, got).0 == Ok(got + Joined(pages))
    decreases |pages|
  {
    var page := pages[0];
    assert got + Joined(pages) == got + page + Joined(pages[1..]);
    if |pages| == 1 {
      assert Joined(pages) == page + [] == page;
    } else {
      PagesSuffice(server, n + 1, Some(page[|page| - 1].cursor), got + page, pages[1..]);
    }
  }

  ghost predicate IsEnumeration(server: Server, pages: seq<seq<Entry>>, all: seq<Entry>) {
    Answered(server, 0, None, pages) && all == Joined(pages) && |all| <= 10_000
  }

  /** Against any server, the enumeration succeeds exactly with the records of such pages, if they
      are at most 10,000. */
  lemma EnumerationIsExact(server: Server, all: seq<Entry>)
    ensures Enumerate(server, 0, None, []).0 == Ok(all)
            <==> exists pages :: IsEnumeration(server, pages, all)
  {
    hide Enumerate, Answered, Joined;
    if Enumerate(server, 0, None, []).0 == Ok(all) {
      var pages := PagesOf(server, 0, None, [], all);
      assert [] + Joined(pages) == Joined(pages);
      assert IsEnumeration(server, pages, all);
    }
    if pages :| IsEnumeration(server, pages, all) {
      assert [] + Joined(pages) == Joined(pages);
      PagesSuffice(server, 0, None, [], pages);
    }
  }

  // ---------------------------------------------------------------------------------------
  // A contract that lists its records by increasing id
  // ---------------------------------------------------------------------------------------

  ghost predicate Increasing(listing: seq<Entry>) {
    forall i, j :: 0 <= i < j < |listing| ==> listing[i].cursor < listing[j].cursor
  }

  /** The first index whose cursor exceeds the given one. */
  function Beyond(listing: seq<Entry>, startAfter: Option<int>): (i: nat)
    ensures i <= |listing|
    ensures startAfter.None? ==> i == 0
    ensures i < |listing| && startAfter.Some? ==> listing[i].cursor > startAfter.value
    ensures startAfter.Some? ==> forall k :: 0 <= k < i ==> listing[k].cursor <= startAfter.value
  {
    if startAfter.None? || listing == [] || listing[0].cursor > startAfter.value then 0
    else 1 + Beyond(listing[1..], startAfter)
  }

  /** The contract's answer: at most one page limit of records after the cursor. */
  function ContractPage(listing: seq<Entry>, startAfter: Option<int>): seq<Entry> {
    var i := Beyond(listing, startAfter);
    if |listing| - i > ENUMERATION_PAGE_LIMIT then listing[i..i + ENUMERATION_PAGE_LIMIT] else listing[i..]
  }

  function Contract(listing: seq<Entry>): Server {
    (n, startAfter) => Ok(ContractPage(listing, startAfter))
  }

  lemma BeyondPrefix(listing: seq<Entry>, k: nat)
    requires Increasing(listing) && 0 < k <= |listing|
    ensures Beyond(listing, Some(listing[k - 1].cursor)) == k
  {
    hide Beyond;
    assert forall j :: 0 <= j < k ==> listing[j].cursor <= listing[k - 1].cursor;
    assert k < |listing| ==> listing[k].cursor > listing[k - 1].cursor;
  }

  ghost function CursorAt(listing: seq<Entry>, k: nat): Option<int>
    requires k <= |listing|
  {
    if k == 0 then None else Some(listing[k - 1].cursor)
  }

  /** Having the first k records in hand, the enumeration gets the rest. */
  lemma {:induction false} EnumerateFrom(listing: seq<Entry>, n: nat, k: nat)
    requires Increasing(listing) && k <= |listing| && k <= MAX_ENUMERATED_CREDIT_RECORDS
    ensures Enumerate(Contract(listing), n, CursorAt(listing, k), listing[..k]).0
            == if |listing| <= MAX_ENUMERATED_CREDIT_RECORDS then Ok(listing) else Err(TooMany)
    decreases MAX_ENUMERATED_CREDIT_RECORDS - k
  {
    if k > 0 { BeyondPrefix(listing, k); }
    var page := ContractPage(listing, CursorAt(listing, k));
    assert Contract(listing)(n, CursorAt(listing, k)) == Ok(page);
    var k' := k + |page|;
    assert listing[..k] + page == listing[..k'];
    if |page| < ENUMERATION_PAGE_LIMIT {
      assert listing[..k'] == listing;
    } else if k' <= MAX_ENUMERATED_CREDIT_RECORDS {
      assert page[|page| - 1] == listing[k' - 1];
      EnumerateFrom(listing, n + 1, k');
    }
  }

  /** Against a contract listing increasing ids, the enumeration returns exactly its records in
      order if there are at most 10,000, and otherwise refuses. */
  lemma ContractIsEnumerated(listing: seq<Entry>)
    requires Increasing(listing)
    ensures Enumerate(Contract(listing), 0, None, []).0
            == if |listing| <= MAX_ENUMERATED_CREDIT_RECORDS then Ok(listing) else Err(TooMany)
  {
    EnumerateFrom(listing, 0, 0);
    assert listing[..0] == [];
  }

  /** The fetch succeeds on such a contract exactly when it has at most 10,000 records and no
      borrower twice, and then returns them all. */
  method FetchFromContract(listing: seq<Entry>) returns (result: Result<seq<ChainRecord>, Error>)
    requires Increasing(listing)
    ensures result.Ok? <==> |listing| <= MAX_ENUMERATED_CREDIT_RECORDS && DistinctBorrowers(listing)
    ensures result.Ok? ==> result.value == Records(listing)
  {
    ContractIsEnumerated(listing);
    var r, n := FetchAllCreditRecords(Contract(listing));
    result := r;
  }
}
