/** The scraper: a session of cookies obtained by logging in, and the weekly-rank search
    that filters every leaderboard page for a name and returns the matches by position.
    The HTTP exchanges are inputs: the login GET's cookies, the login POST as a function
    of the form it is sent, and the page GET as a function of the request. */
module WebScraper {
  import opened Outcomes
  import opened KotlinText
  import opened StableSort
  import opened RankRow
  import opened PageCount

  type Cookies = map<string, string>

  const Url: string := "https://www.urionlinejudge.com.br/judge/pt"
  const UrlWeeklyRank: string := Url + "/points/week"
  const TimeoutMs: int := 500000

  /** The text the login page shows for rejected credentials. */
  const InvalidLoginMarker: string := "'Desculpe, usu\U{E1}rio ou senha inv\U{E1}lido.'"

  // ---------------------------------------------------------------- the HTTP black boxes

  /** A GET of a ranking page (`UrlWeeklyRank` with the query `?page=<page>`): the page
      number, the cookies attached and the timeout. */
  datatype Request = Request(page: nat, cookies: Cookies, timeoutMs: int)

  /** What the scraper reads from a parsed ranking page: for each `tbody`, in document
      order, the text of each of its `tr` elements; and the text of the element with id
      `table-info`, if there is one. */
  datatype Page = Page(tbodies: seq<seq<string>>, tableInfo: Option<string>)

  /** The login POST: the form fields and the cookies attached. */
  datatype LoginForm = LoginForm(email: string, password: string, csrfToken: Option<string>, cookies: Cookies)

  datatype LoginResponse = LoginResponse(body: string, cookies: Cookies)

  /** The request for page `page` of the weekly rank. */
  function PageRequest(page: nat, cookies: Cookies): Request
  {
    Request(page, cookies, TimeoutMs)
  }

  // ---------------------------------------------------------------- login

  /** `cookies["csrfToken"]`. */
  function CsrfToken(cookies: Cookies): Option<string>
  {
    if "csrfToken" in cookies then Some(cookies["csrfToken"]) else None
  }

  /** The session a login leaves behind: the GET's cookies, sent back with the POST
      together with the credentials and the CSRF token; a POST body holding the marker
      is a login error; otherwise the POST's cookies are merged over the GET's. */
  function LoginExchange(email: string, password: string, getCookies: Result<Cookies>,
                         post: LoginForm -> Result<LoginResponse>): (r: Result<Cookies>)
    ensures getCookies.Failure? ==> r == Failure(getCookies.error)
    ensures getCookies.Success? ==>
      var seed := getCookies.value;
      match post(LoginForm(email, password, CsrfToken(seed), seed))
      case Failure(e) => r == Failure(e)
      case Success(response) =>
        if Contains(response.body, InvalidLoginMarker, false) then
          r == Failure(LoginError("Invalid user or password"))
        else
          && r.Success?
          && r.value.Keys == seed.Keys + response.cookies.Keys
          && (forall k :: k in response.cookies ==> r.value[k] == response.cookies[k])
          && (forall k :: k in seed && k !in response.cookies ==> r.value[k] == seed[k])
  {
    var seed :- getCookies;
    var response :- post(LoginForm(email, password, CsrfToken(seed), seed));
    if Contains(response.body, InvalidLoginMarker, false) then
      Failure(LoginError("Invalid user or password"))
    else
      Success(seed + response.cookies)
  }

  /** A POST answer whose body holds the marker anywhere is a login error, whatever
      else the body or its cookies hold. */
  lemma LoginRejectsMarker(email: string, password: string, seed: Cookies,
                           post: LoginForm -> Result<LoginResponse>, before: string, after: string, issued: Cookies)
    requires post(LoginForm(email, password, CsrfToken(seed), seed))
             == Success(LoginResponse(before + InvalidLoginMarker + after, issued))
    ensures LoginExchange(email, password, Success(seed), post) == Failure(LoginError("Invalid user or password"))
  {
    ContainsEmbedded(before, InvalidLoginMarker, after, false);
  }

  // ---------------------------------------------------------------- one page

  /** The rows whose text contains `name`, ignoring case, in table order. */
  function MatchingRows(rows: seq<string>, name: string): seq<string>
  {
    if rows == [] then []
    else if Contains(rows[0], name, true) then [rows[0]] + MatchingRows(rows[1..], name)
    else MatchingRows(rows[1..], name)
  }

  /** The kept rows are rows of the table that contain the name, and every row that
      contains the name is kept. */
  lemma {:induction false} MatchingRowsExact(rows: seq<string>, name: string)
    ensures |MatchingRows(rows, name)| <= |rows|
    ensures forall x :: x in MatchingRows(rows, name) <==> x in rows && Contains(x, name, true)
  {
    if rows != [] {
      MatchingRowsExact(rows[1..], name);
      assert forall x :: x in rows <==> x == rows[0] || x in rows[1..];
    }
  }

  /** Filtering a table in two parts filters each part: together with the single-row
      case this says the result is exactly the matching rows, in table order. */
  lemma {:induction false} MatchingRowsAppend(a: seq<string>, b: seq<string>, name: string)
    ensures MatchingRows(a + b, name) == MatchingRows(a, name) + MatchingRows(b, name)
  {
    if a == [] {
      assert a + b == b;
    } else {
      assert (a + b)[0] == a[0];
      assert (a + b)[1..] == a[1..] + b;
      MatchingRowsAppend(a[1..], b, name);
      if Contains(a[0], name, true) {
        assert [a[0]] + (MatchingRows(a[1..], name) + MatchingRows(b, name))
            == [a[0]] + MatchingRows(a[1..], name) + MatchingRows(b, name);
      }
    }
  }

  /** Every row through the formatter, in order; the first failure is the result. */
  function FormatAll(rows: seq<string>): Result<seq<RankEntry>>
  {
    if rows == [] then Success([])
    else
      var first :- FormatRow(rows[0]);
      var rest :- FormatAll(rows[1..]);
      Success([first] + rest)
  }

  /** A successful formatting holds one entry per row, each the row's own formatting. */
  lemma {:induction false} FormatAllEntries(rows: seq<string>)
    requires FormatAll(rows).Success?
    ensures |FormatAll(rows).value| == |rows|
    ensures forall i :: 0 <= i < |rows| ==> FormatRow(rows[i]) == Success(FormatAll(rows).value[i])
  {
    if rows != [] {
      FormatAllEntries(rows[1..]);
      forall i | 0 < i < |rows| ensures FormatRow(rows[i]) == Success(FormatAll(rows).value[i]) {
        assert rows[i] == rows[1..][i - 1];
      }
    }
  }

  /** The formatting of a list fails exactly when some row fails, and then with the
      error of the first row that fails. */
  lemma {:induction false} FormatAllFails(rows: seq<string>)
    ensures FormatAll(rows).Failure? <==> exists i :: 0 <= i < |rows| && FormatRow(rows[i]).Failure?
    ensures FormatAll(rows).Failure? ==>
      exists i :: 0 <= i < |rows| && FormatRow(rows[i]).Failure?
        && FormatAll(rows).error == FormatRow(rows[i]).error
        && forall j :: 0 <= j < i ==> FormatRow(rows[j]).Success?
  {
    if rows != [] {
      FormatAllFails(rows[1..]);
      if FormatRow(rows[0]).Success? && FormatAll(rows[1..]).Failure? {
        var i :| 0 <= i < |rows[1..]| && FormatRow(rows[1..][i]).Failure?
          && FormatAll(rows[1..]).error == FormatRow(rows[1..][i]).error
          && forall j :: 0 <= j < i ==> FormatRow(rows[1..][j]).Success?;
        assert FormatRow(rows[i + 1]).Failure?;
        forall j | 0 <= j < i + 1 ensures FormatRow(rows[j]).Success? {
          if j > 0 { assert rows[j] == rows[1..][j - 1]; }
        }
      }
      if exists i :: 0 <= i < |rows| && FormatRow(rows[i]).Failure? {
        var i :| 0 <= i < |rows| && FormatRow(rows[i]).Failure?;
        if i > 0 { assert rows[1..][i - 1] == rows[i]; }
      }
    }
  }

  /** A page fetched and searched: the document and its matches. */
  datatype PageResult = PageResult(doc: Page, matches: seq<RankEntry>)

  /** `getWeeklyRankPositionByPage`: fetch the page with the session's cookies, take the
      first `tbody` (an index error if there is none) and format its matching rows. */
  function ByPage(fetch: Request -> Result<Page>, cookies: Cookies, page: nat, name: string): Result<PageResult>
  {
    var doc :- fetch(PageRequest(page, cookies));
    if |doc.tbodies| == 0 then Failure(IndexOutOfBounds(0, 0))
    else
      var matches :- FormatAll(MatchingRows(doc.tbodies[0], name));
      Success(PageResult(doc, matches))
  }

  /** A page's result is, row for row, the formatting of the rows of its first table
      body that contain the name ignoring case, in table order. */
  lemma ByPageMatches(fetch: Request -> Result<Page>, cookies: Cookies, page: nat, name: string)
    requires ByPage(fetch, cookies, page, name).Success?
    ensures var res := ByPage(fetch, cookies, page, name).value;
      && fetch(PageRequest(page, cookies)) == Success(res.doc)
      && |res.doc.tbodies| >= 1
      && var rows := MatchingRows(res.doc.tbodies[0], name);
         && |res.matches| == |rows|
         && forall i :: 0 <= i < |rows| ==>
              rows[i] in res.doc.tbodies[0] && Contains(rows[i], name, true)
              && FormatRow(rows[i]) == Success(res.matches[i])
  {
    var doc := fetch(PageRequest(page, cookies)).value;
    var rows := MatchingRows(doc.tbodies[0], name);
    MatchingRowsExact(doc.tbodies[0], name);
    FormatAllEntries(rows);
    assert forall i :: 0 <= i < |rows| ==> rows[i] in rows;
  }

  // ---------------------------------------------------------------- all pages

  /** The per-page search of one session and one name, as a function of the page. */
  function PageSearch(fetch: Request -> Result<Page>, cookies: Cookies, name: string): nat -> Result<PageResult>
  {
    (page: nat) => ByPage(fetch, cookies, page, name)
  }

  /** The matches of pages 2 .. `last`, page after page; the first page that fails
      makes the whole a failure. */
  function PagesUpTo(search: nat -> Result<PageResult>, last: int): Result<seq<RankEntry>>
    decreases last
  {
    if last < 2 then Success([])
    else
      var before :- PagesUpTo(search, last - 1);
      var current :- search(last);
      Success(before + current.matches)
  }

  /** Once a page fails, the failure is what every longer run of pages returns. */
  lemma {:induction false} PagesUpToFailurePersists(search: nat -> Result<PageResult>, last: int, beyond: int)
    requires last <= beyond
    requires PagesUpTo(search, last).Failure?
    ensures PagesUpTo(search, beyond) == PagesUpTo(search, last)
    decreases beyond - last
  {
    if last < beyond {
      PagesUpToFailurePersists(search, last, beyond - 1);
    }
  }

  /** Any failing page among 2 .. `last` makes the whole search fail. */
  lemma {:induction false} PagesUpToFailsAt(search: nat -> Result<PageResult>, p: nat, last: int)
    requires 2 <= p <= last
    requires search(p).Failure?
    ensures PagesUpTo(search, last).Failure?
    decreases last
  {
    if p < last {
      PagesUpToFailsAt(search, p, last - 1);
    }
  }

  /** Conversely, every page among 2 .. `last` of a successful search succeeded, and
      all of its matches are among the entries. */
  lemma {:induction false} PagesUpToIncludes(search: nat -> Result<PageResult>, p: nat, last: int)
    requires 2 <= p <= last
    requires PagesUpTo(search, last).Success?
    ensures search(p).Success?
    ensures multiset(search(p).value.matches) <= multiset(PagesUpTo(search, last).value)
    decreases last
  {
    if p < last {
      PagesUpToIncludes(search, p, last - 1);
    }
  }

  /** Every entry of pages 2 .. `last` is a match of one of those pages. */
  lemma {:induction false} PagesUpToEntries(fetch: Request -> Result<Page>, cookies: Cookies, name: string, last: int)
    requires PagesUpTo(PageSearch(fetch, cookies, name), last).Success?
    ensures forall e :: e in PagesUpTo(PageSearch(fetch, cookies, name), last).value ==>
      exists p :: 2 <= p <= last && ByPage(fetch, cookies, p, name).Success?
        && e in ByPage(fetch, cookies, p, name).value.matches
    decreases last
  {
    var search := PageSearch(fetch, cookies, name);
    if last >= 2 {
      PagesUpToEntries(fetch, cookies, name, last - 1);
      var before := PagesUpTo(search, last - 1).value;
      var current := search(last).value;
      assert PagesUpTo(search, last).value == before + current.matches;
      forall e | e in PagesUpTo(search, last).value
        ensures exists p :: 2 <= p <= last && ByPage(fetch, cookies, p, name).Success?
                             && e in ByPage(fetch, cookies, p, name).value.matches
      {
        if e in before {
          var p :| 2 <= p <= last - 1 && ByPage(fetch, cookies, p, name).Success?
            && e in ByPage(fetch, cookies, p, name).value.matches;
        } else {
          assert ByPage(fetch, cookies, last, name).Success?;
        }
      }
    }
  }

  /** The loop over pages 2 .. `pages`: each page's matches are appended to `first`;
      the first page that fails ends the search with its error. */
  method SearchPages(search: nat -> Result<PageResult>, pages: int, first: seq<RankEntry>)
    returns (r: Result<seq<RankEntry>>)
    ensures PagesUpTo(search, pages).Failure? ==> r == Failure(PagesUpTo(search, pages).error)
    ensures PagesUpTo(search, pages).Success? ==> r == Success(first + PagesUpTo(search, pages).value)
  {
    var result := first;
    ghost var rest := [];
    var page := 2;
    while page <= pages
      invariant 2 <= page && (page <= pages + 1 || page == 2)
      invariant PagesUpTo(search, page - 1) == Success(rest)
      invariant result == first + rest
    {
      var byPage := search(page);
      if byPage.Failure? {
        PagesUpToFailurePersists(search, page, pages);
        return Failure(byPage.error);
      }
      result := result + byPage.value.matches;
      rest := rest + byPage.value.matches;
      page := page + 1;
    }
    assert PagesUpTo(search, pages) == Success(rest);
    r := Success(result);
  }

  /** Page 1's matches, then those of pages 2 .. the page count read from page 1. */
  function Collected(fetch: Request -> Result<Page>, cookies: Cookies, name: string): Result<seq<RankEntry>>
  {
    var first :- ByPage(fetch, cookies, 1, name);
    var pages :- TotalPages(first.doc.tableInfo);
    var rest :- PagesUpTo(PageSearch(fetch, cookies, name), pages);
    Success(first.matches + rest)
  }

  function Position(e: RankEntry): int { e.position }

  /** The texts of the entries, in order. */
  function Texts(entries: seq<RankEntry>): seq<string>
  {
    seq(|entries|, i requires 0 <= i < |entries| => entries[i].text)
  }

  /** What `getWeeklyRankPosition` returns: the collected matches sorted by position,
      texts only. */
  function WeeklyRank(fetch: Request -> Result<Page>, cookies: Cookies, name: string): Result<seq<string>>
  {
    var all :- Collected(fetch, cookies, name);
    Success(Texts(SortBy(all, Position)))
  }

  /** `WeeklyRank` and `Collected` unfolded stage by stage, for the proof of
      `GetWeeklyRankPosition`. */
  lemma WeeklyRankStages(fetch: Request -> Result<Page>, cookies: Cookies, name: string)
    ensures ByPage(fetch, cookies, 1, name).Failure? ==>
      WeeklyRank(fetch, cookies, name) == Failure(ByPage(fetch, cookies, 1, name).error)
    ensures ByPage(fetch, cookies, 1, name).Success? ==>
      var first := ByPage(fetch, cookies, 1, name).value;
      var pages := TotalPages(first.doc.tableInfo);
      && (pages.Failure? ==> WeeklyRank(fetch, cookies, name) == Failure(pages.error))
      && (pages.Success? ==>
            var rest := PagesUpTo(PageSearch(fetch, cookies, name), pages.value);
            && (rest.Failure? ==> WeeklyRank(fetch, cookies, name) == Failure(rest.error))
            && (rest.Success? ==>
                  WeeklyRank(fetch, cookies, name) == Success(Texts(SortBy(first.matches + rest.value, Position)))))
  {
  }

  /** Every page is needed: page 1 failing, the page count failing, or any page between
      2 and the page count failing makes the whole search fail; no partial result is
      returned. */
  lemma WeeklyRankPageFails(fetch: Request -> Result<Page>, cookies: Cookies, name: string, p: nat)
    requires || ByPage(fetch, cookies, 1, name).Failure?
             || (ByPage(fetch, cookies, 1, name).Success? &&
                 var pages := TotalPages(ByPage(fetch, cookies, 1, name).value.doc.tableInfo);
                 || pages.Failure?
                 || (2 <= p <= pages.value && ByPage(fetch, cookies, p, name).Failure?))
    ensures WeeklyRank(fetch, cookies, name).Failure?
  {
    if ByPage(fetch, cookies, 1, name).Success? {
      var pages := TotalPages(ByPage(fetch, cookies, 1, name).value.doc.tableInfo);
      if pages.Success? {
        PagesUpToFailsAt(PageSearch(fetch, cookies, name), p, pages.value);
      }
    }
  }

  /** The result is the texts of a reordering of every collected match that is sorted by
      position and keeps entries of equal position in collection order. */
  lemma WeeklyRankOrdered(fetch: Request -> Result<Page>, cookies: Cookies, name: string)
    ensures WeeklyRank(fetch, cookies, name).Success? <==> Collected(fetch, cookies, name).Success?
    ensures Collected(fetch, cookies, name).Success? ==>
      var all := Collected(fetch, cookies, name).value;
      var sorted := SortBy(all, Position);
      && WeeklyRank(fetch, cookies, name) == Success(Texts(sorted))
      && SortedBy(sorted, Position)
      && multiset(sorted) == multiset(all)
      && forall k :: WithKey(sorted, Position, k) == WithKey(all, Position, k)
  {
    if Collected(fetch, cookies, name).Success? {
      SortByCorrect(Collected(fetch, cookies, name).value, Position);
    }
  }

  /** `e` is the formatting of a row of page `p`'s first table body whose text
      contains the name, ignoring case. */
  predicate MatchOn(fetch: Request -> Result<Page>, cookies: Cookies, p: nat, name: string, e: RankEntry)
  {
    var doc := fetch(PageRequest(p, cookies));
    && doc.Success? && |doc.value.tbodies| >= 1
    && exists row :: row in doc.value.tbodies[0] && Contains(row, name, true) && FormatRow(row) == Success(e)
  }

  /** Page `p`'s matches are all formattings of its matching rows. */
  lemma ByPageEntries(fetch: Request -> Result<Page>, cookies: Cookies, p: nat, name: string)
    requires ByPage(fetch, cookies, p, name).Success?
    ensures forall e :: e in ByPage(fetch, cookies, p, name).value.matches ==> MatchOn(fetch, cookies, p, name, e)
  {
    ByPageMatches(fetch, cookies, p, name);
    var res := ByPage(fetch, cookies, p, name).value;
    var rows := MatchingRows(res.doc.tbodies[0], name);
    forall e | e in res.matches ensures MatchOn(fetch, cookies, p, name, e) {
      var i :| 0 <= i < |res.matches| && res.matches[i] == e;
      assert FormatRow(rows[i]) == Success(e);
    }
  }

  /** Every collected entry, from page 1 or a later page up to the page count, is the
      formatting of a row that contains the name on one of those fetched pages. */
  lemma CollectedEntries(fetch: Request -> Result<Page>, cookies: Cookies, name: string)
    requires Collected(fetch, cookies, name).Success?
    ensures forall e :: e in Collected(fetch, cookies, name).value ==>
      exists p :: 1 <= p && (p == 1 || p <= TotalPages(ByPage(fetch, cookies, 1, name).value.doc.tableInfo).value) && MatchOn(fetch, cookies, p, name, e)
  {
    var first := ByPage(fetch, cookies, 1, name).value;
    var pages := TotalPages(first.doc.tableInfo).value;
    var rest := PagesUpTo(PageSearch(fetch, cookies, name), pages).value;
    ByPageEntries(fetch, cookies, 1, name);
    PagesUpToEntries(fetch, cookies, name, pages);
    forall e | e in Collected(fetch, cookies, name).value ensures exists p :: 1 <= p && (p == 1 || p <= TotalPages(ByPage(fetch, cookies, 1, name).value.doc.tableInfo).value) && MatchOn(fetch, cookies, p, name, e) {
      if e in first.matches {
        assert MatchOn(fetch, cookies, 1, name, e);
      } else {
        assert e in rest;
        var p :| 2 <= p <= pages && ByPage(fetch, cookies, p, name).Success?
          && e in ByPage(fetch, cookies, p, name).value.matches;
        ByPageEntries(fetch, cookies, p, name);
      }
    }
  }

  /** Every line of the result is the text of such an entry: no row without the name
      is ever reported. */
  lemma WeeklyRankFound(fetch: Request -> Result<Page>, cookies: Cookies, name: string)
    requires WeeklyRank(fetch, cookies, name).Success?
    ensures forall t :: t in WeeklyRank(fetch, cookies, name).value ==>
      exists p, e :: 1 <= p && (p == 1 || p <= TotalPages(ByPage(fetch, cookies, 1, name).value.doc.tableInfo).value)
        && MatchOn(fetch, cookies, p, name, e) && e.text == t
  {
    WeeklyRankOrdered(fetch, cookies, name);
    CollectedEntries(fetch, cookies, name);
    var all := Collected(fetch, cookies, name).value;
    var sorted := SortBy(all, Position);
    forall t | t in WeeklyRank(fetch, cookies, name).value
      ensures exists p, e :: 1 <= p && (p == 1 || p <= TotalPages(ByPage(fetch, cookies, 1, name).value.doc.tableInfo).value)
                             && MatchOn(fetch, cookies, p, name, e) && e.text == t
    {
      var i :| 0 <= i < |sorted| && Texts(sorted)[i] == t;
      var e := sorted[i];
      assert e in multiset(sorted);
      assert e in all;
    }
  }

  /** Page 1, and every page up to the page count, succeeded in a successful search,
      and all of its matches were collected. */
  lemma CollectedIncludes(fetch: Request -> Result<Page>, cookies: Cookies, name: string, p: nat)
    requires Collected(fetch, cookies, name).Success?
    requires p == 1 || 2 <= p <= TotalPages(ByPage(fetch, cookies, 1, name).value.doc.tableInfo).value
    ensures ByPage(fetch, cookies, p, name).Success?
    ensures multiset(ByPage(fetch, cookies, p, name).value.matches) <= multiset(Collected(fetch, cookies, name).value)
  {
    var search := PageSearch(fetch, cookies, name);
    var first := ByPage(fetch, cookies, 1, name).value;
    var pages := TotalPages(first.doc.tableInfo).value;
    var rest := PagesUpTo(search, pages).value;
    assert multiset(Collected(fetch, cookies, name).value) == multiset(first.matches) + multiset(rest);
    if p != 1 {
      PagesUpToIncludes(search, p, pages);
    }
  }

  /** A row of page `p`'s first table body that contains the name is among the page's
      matches, formatted. */
  lemma ByPageIncludes(fetch: Request -> Result<Page>, cookies: Cookies, p: nat, name: string, row: string)
    requires ByPage(fetch, cookies, p, name).Success?
    requires row in ByPage(fetch, cookies, p, name).value.doc.tbodies[0] && Contains(row, name, true)
    ensures FormatRow(row).Success? && FormatRow(row).value in ByPage(fetch, cookies, p, name).value.matches
  {
    var res := ByPage(fetch, cookies, p, name).value;
    var rows := MatchingRows(res.doc.tbodies[0], name);
    MatchingRowsExact(res.doc.tbodies[0], name);
    ByPageMatches(fetch, cookies, p, name);
    var i :| 0 <= i < |rows| && rows[i] == row;
    assert FormatRow(row) == Success(res.matches[i]);
  }

  /** "Find all users in weekly rank with a given name": every row of page 1, or of a
      page up to the page count, that contains the name is reported, as its formatted
      text. */
  lemma WeeklyRankComplete(fetch: Request -> Result<Page>, cookies: Cookies, name: string, p: nat, row: string)
    requires WeeklyRank(fetch, cookies, name).Success?
    requires p == 1 || 2 <= p <= TotalPages(ByPage(fetch, cookies, 1, name).value.doc.tableInfo).value
    requires fetch(PageRequest(p, cookies)).Success?
    requires var doc := fetch(PageRequest(p, cookies)).value;
      |doc.tbodies| >= 1 && row in doc.tbodies[0] && Contains(row, name, true)
    ensures FormatRow(row).Success?
    ensures FormatRow(row).value.text in WeeklyRank(fetch, cookies, name).value
  {
    CollectedIncludes(fetch, cookies, name, p);
    ByPageIncludes(fetch, cookies, p, name, row);
    var e := FormatRow(row).value;
    assert e in multiset(ByPage(fetch, cookies, p, name).value.matches);
    WeeklyRankReports(fetch, cookies, name, e);
  }

  /** The sort loses no entry: every collected entry's text is in the result. */
  lemma WeeklyRankReports(fetch: Request -> Result<Page>, cookies: Cookies, name: string, e: RankEntry)
    requires WeeklyRank(fetch, cookies, name).Success?
    requires e in Collected(fetch, cookies, name).value
    ensures e.text in WeeklyRank(fetch, cookies, name).value
  {
    WeeklyRankOrdered(fetch, cookies, name);
    var sorted := SortBy(Collected(fetch, cookies, name).value, Position);
    assert e in multiset(sorted);
    var k :| 0 <= k < |sorted| && sorted[k] == e;
    assert Texts(sorted)[k] == e.text;
  }

  /** Without a `table-info` element, or with a page count of 1 or less, only page 1 is
      read, and the result is its matches sorted by position. */
  lemma SinglePage(fetch: Request -> Result<Page>, cookies: Cookies, name: string)
    requires ByPage(fetch, cookies, 1, name).Success?
    requires var first := ByPage(fetch, cookies, 1, name).value;
      || first.doc.tableInfo.None?
      || (TotalPages(first.doc.tableInfo).Success? && TotalPages(first.doc.tableInfo).value <= 1)
    ensures Collected(fetch, cookies, name) == Success(ByPage(fetch, cookies, 1, name).value.matches)
    ensures WeeklyRank(fetch, cookies, name) ==
      Success(Texts(SortBy(ByPage(fetch, cookies, 1, name).value.matches, Position)))
  {
    assert ByPage(fetch, cookies, 1, name).value.matches + [] == ByPage(fetch, cookies, 1, name).value.matches;
  }

  // ---------------------------------------------------------------- the scraper object

  /** The scraper. In Kotlin its constructor logs in, so no scraper exists without a
      successful login; here that constructor is `Create`, which is the only way a scraper
      is obtained: the bare `constructor` below only initialises the field for it. */
  class UriOnlineJudgeWebScraper {
    /** The session: cookie name to value. */
    var cookies: Cookies

    /** The field's initial value; `Create` follows it with `Login`. */
    constructor ()
      ensures cookies == map[]
    {
      cookies := map[];
    }

    /** `login`: the GET's cookies replace the session; the POST carries them with the
        credentials and the CSRF token; the marker in its body is a login error;
        otherwise its cookies are written into the session one by one. */
    method Login(email: string, password: string, getCookies: Result<Cookies>,
                 post: LoginForm -> Result<LoginResponse>) returns (outcome: Result<()>)
      modifies this
      ensures outcome.Success? <==> LoginExchange(email, password, getCookies, post).Success?
      ensures outcome.Success? ==> cookies == LoginExchange(email, password, getCookies, post).value
      ensures outcome.Failure? ==> outcome.error == LoginExchange(email, password, getCookies, post).error
      ensures getCookies.Failure? ==> cookies == old(cookies)
      ensures getCookies.Success? && outcome.Failure? ==> cookies == getCookies.value
    {
      if getCookies.Failure? {
        return Failure(getCookies.error);
      }
      cookies := getCookies.value;
      var seed := cookies;
      var response := post(LoginForm(email, password, CsrfToken(cookies), cookies));
      if response.Failure? {
        return Failure(response.error);
      }
      if Contains(response.value.body, InvalidLoginMarker, false) {
        return Failure(LoginError("Invalid user or password"));
      }
      var issued := response.value.cookies;
      var pending := issued.Keys;
      while pending != {}
        invariant pending <= issued.Keys
        invariant cookies.Keys == seed.Keys + (issued.Keys - pending)
        invariant forall k :: k in issued && k !in pending ==> cookies[k] == issued[k]
        invariant forall k :: k in seed && k !in issued ==> cookies[k] == seed[k]
        invariant forall k :: k in seed && k in pending ==> cookies[k] == seed[k]
        decreases pending
      {
        var k :| k in pending;
        cookies := cookies[k := issued[k]];
        pending := pending - {k};
      }
      assert cookies == seed + issued;
      outcome := Success(());
    }

    /** `getWeeklyRankPosition`: page 1 gives its matches and the page count; pages
        2 .. count are searched in turn and their matches appended; the whole is sorted
        by position and only the texts are kept. */
    method GetWeeklyRankPosition(fetch: Request -> Result<Page>, name: string) returns (r: Result<seq<string>>)
      ensures r == WeeklyRank(fetch, cookies, name)
    {
      var first := ByPage(fetch, cookies, 1, name);
      if first.Failure? {
        WeeklyRankStages(fetch, cookies, name);
        return Failure(first.error);
      }
      var pageCount := TotalPages(first.value.doc.tableInfo);
      if pageCount.Failure? {
        WeeklyRankStages(fetch, cookies, name);
        return Failure(pageCount.error);
      }
      var all := SearchPages(PageSearch(fetch, cookies, name), pageCount.value, first.value.matches);
      WeeklyRankStages(fetch, cookies, name);
      if all.Failure? {
        return Failure(all.error);
      }
      r := Success(Texts(SortBy(all.value, Position)));
    }
  }

  /** Constructing the scraper logs in; a failed login leaves no scraper, so no page
      can be fetched with a rejected session. */
  method Create(email: string, password: string, getCookies: Result<Cookies>,
                post: LoginForm -> Result<LoginResponse>) returns (r: Result<UriOnlineJudgeWebScraper>)
    ensures r.Success? <==> LoginExchange(email, password, getCookies, post).Success?
    ensures r.Failure? ==> r.error == LoginExchange(email, password, getCookies, post).error
    ensures r.Success? ==> fresh(r.value) && r.value.cookies == LoginExchange(email, password, getCookies, post).value
  {
    var scraper := new UriOnlineJudgeWebScraper();
    var outcome := scraper.Login(email, password, getCookies, post);
    if outcome.Failure? {
      return Failure(outcome.error);
    }
    return Success(scraper);
  }
}
