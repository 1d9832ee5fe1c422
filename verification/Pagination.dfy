/** Page numbers and sizes from a request, and the row offset they stand for. */
module Pagination {
  import opened Int64
  import opened Paging
  import opened Wrappers

  const DEFAULT_PAGE := 1
  const DEFAULT_PER_PAGE := 20

  // ---- Reading a number ----

  /** White space as Go's unicode package defines it. */
  predicate IsSpace(c: char) {
    || '\t' <= c <= '\r' || c == ' ' || c == '\U{85}' || c == '\U{A0}' || c == '\U{1680}'
    || '\U{2000}' <= c <= '\U{200A}' || c == '\U{2028}' || c == '\U{2029}' || c == '\U{202F}'
    || c == '\U{205F}' || c == '\U{3000}'
  }

  /** Nothing is left of the text once white space is trimmed. */
  predicate Blank(s: string) {
    forall i | 0 <= i < |s| :: IsSpace(s[i])
  }

  predicate AllDigits(s: string) {
    forall i | 0 <= i < |s| :: '0' <= s[i] <= '9'
  }

  function Number(s: string): nat
    requires AllDigits(s)
  {
    if |s| == 0 then 0 else 10 * Number(s[..|s| - 1]) + (s[|s| - 1] as int - '0' as int)
  }

  /** An optional sign and at least one digit, for a number that fits a signed 64-bit integer. */
  function Atoi(s: string): Option<int> {
    var digits := if |s| > 0 && (s[0] == '-' || s[0] == '+') then s[1..] else s;
    if |digits| == 0 || !AllDigits(digits) then None
    else
      var n: int := Number(digits);
      var signed := if s[0] == '-' then -n else n;
      if -TWO_63 <= signed < TWO_63 then Some(signed) else None
  }

  function Itoa(n: nat): (s: string)
    ensures |s| > 0 && AllDigits(s) && Number(s) == n
  {
    if n < 10 then [n as char + '0'] else
    var s := Itoa(n / 10) + [(n % 10) as char + '0'];
    assert s[..|s| - 1] == Itoa(n / 10);
    s
  }

  lemma AtoiItoa(n: nat)
    requires n < TWO_63
    ensures Atoi(Itoa(n)) == Some(n) && !Blank(Itoa(n))
  {
    assert '0' <= Itoa(n)[0] <= '9';
  }

  /** White space by code point. */
  lemma SpaceCodes(c: char)
    ensures IsSpace(c) <==>
              var n := c as int;
              || 9 <= n <= 13 || n == 32 || n == 133 || n == 160 || n == 5760 || 8192 <= n <= 8202
              || n == 8232 || n == 8233 || n == 8239 || n == 8287 || n == 12288
  {
  }

  /** A sign is read, and a number that does not fit is not. */
  lemma AtoiSigned(n: nat)
    ensures Atoi(['+'] + Itoa(n)) == if n < TWO_63 then Some(n as int) else None
    ensures Atoi(['-'] + Itoa(n)) == if n <= TWO_63 then Some(0 - n) else None
    ensures TWO_63 <= n ==> Atoi(Itoa(n)) == None
  {
    var d := Itoa(n);
    hide Itoa, Number;
    assert (['+'] + d)[1..] == d && (['-'] + d)[1..] == d;
    assert '0' <= d[0] <= '9';
  }

  /** Without a digit, or with anything but digits behind the first place, there is no number. */
  lemma AtoiFails(s: string, i: nat)
    requires s == "" || s == "+" || s == "-" || (0 < i < |s| && !('0' <= s[i] <= '9'))
    ensures Atoi(s) == None
  {
    assert 0 < i < |s| ==> s[1..][i - 1] == s[i];
  }

  // ---- The paginator ----

  datatype Paginator = Paginator(perPage: int, page: int)
  {
    /** The number of rows before the page, in int64 arithmetic. */
    function Offset(): int {
      if page <= 0 then 0 else Wrap64(Wrap64(page - 1) * perPage)
    }

    predicate Valid() {
      1 <= page < TWO_63 && 1 <= perPage < TWO_63
    }
  }

  predicate Positive(s: string) {
    Atoi(s).Some? && Atoi(s).value > 0
  }

  /** What a request's page and per_page parameters ask for. */
  function Asked(page: string, perPage: string): Paginator {
    if Blank(page) || Positive(page) then
      Paginator(if Positive(perPage) then Atoi(perPage).value else DEFAULT_PER_PAGE,
                if Positive(page) then Atoi(page).value else DEFAULT_PAGE)
    else Paginator(DEFAULT_PER_PAGE, DEFAULT_PAGE)
  }

  lemma BlankIsNoNumber(s: string)
    requires Blank(s)
    ensures Atoi(s) == None
  {
    assert |s| > 0 ==> IsSpace(s[0]);
  }

  method PaginatorFromRequest(page: string, perPage: string) returns (p: Paginator)
    ensures p.Valid()
    ensures p == Asked(page, perPage)
    ensures Blank(page) && Blank(perPage) ==> p.page == 1 && p.perPage == 20
    ensures !Blank(page) && (Atoi(page) == None || Atoi(page).value <= 0) ==> p.page == 1 && p.perPage == 20
    ensures Atoi(page).Some? && 0 < Atoi(page).value ==> p.page == Atoi(page).value
    ensures Blank(page) ==> p.page == 1
    ensures (Blank(page) || (Atoi(page).Some? && 0 < Atoi(page).value)) && Atoi(perPage).Some? && 0 < Atoi(perPage).value ==>
              p.perPage == Atoi(perPage).value
    ensures Atoi(perPage) == None || Atoi(perPage).value <= 0 ==> p.perPage == 20
  {
    p := Paginator(DEFAULT_PER_PAGE, DEFAULT_PAGE);
    if Blank(page) {
      BlankIsNoNumber(page);
    } else {
      var dd := Atoi(page);
      if dd == None || dd.value <= 0 {
        return;
      }
      p := p.(page := dd.value);
    }
    if Blank(perPage) {
      BlankIsNoNumber(perPage);
    } else {
      var dd := Atoi(perPage);
      if dd == None || dd.value <= 0 {
        return;
      }
      p := p.(perPage := dd.value);
    }
  }

  /** A page number and size written in decimal come back as they were. */
  lemma RequestRoundTrip(p: Paginator)
    requires p.Valid()
    ensures Asked(Itoa(p.page), Itoa(p.perPage)) == p
  {
    AtoiItoa(p.page);
    AtoiItoa(p.perPage);
  }

  /** A size that is not the default takes effect if and only if the page parameter is blank
      or a positive number: a bad page number discards a good size. */
  lemma SizeHonouredExactly(page: string, perPage: string)
    requires Positive(perPage) && Atoi(perPage).value != DEFAULT_PER_PAGE
    ensures Asked(page, perPage).perPage == Atoi(perPage).value <==> Blank(page) || Positive(page)
  {
  }

  // ---- Offsets ----

  /** The offset counts the rows before the page if and only if their number fits a signed
      64-bit integer. */
  lemma OffsetExactly(p: Paginator)
    requires p.Valid()
    ensures p.Offset() == (p.page - 1) * p.perPage <==> (p.page - 1) * p.perPage < TWO_63
    ensures p.Offset() == Start(p.perPage, p.page - 1) <==> (p.page - 1) * p.perPage < TWO_63
    ensures (p.page - 1) * p.perPage < TWO_63 ==> 0 <= p.Offset()
  {
    StartExactly(p.perPage, p.page - 1);
    MulMonotone(0, p.page - 1, p.perPage);
  }

  /** Up to that limit, each page starts where the one before it ends. */
  lemma PagesAbut(perPage: int, page: int)
    requires 1 <= page && 1 <= perPage && page * perPage < TWO_63
    ensures Paginator(perPage, page + 1).Offset() == Paginator(perPage, page).Offset() + perPage
  {
    assert page * perPage == (page - 1) * perPage + perPage;
    MulMonotone(0, page - 1, perPage);
    MulMonotone(1, perPage, page);
  }

  /** Past it the offset can be any: page 2^62 + 1 with four rows a page is page 1 again, and
      page 2^61 + 1 has a negative offset. */
  lemma FarOffsetsWrap()
    ensures Paginator(4, 0x4000_0000_0000_0001).Offset() == 0
    ensures Paginator(4, 0x2000_0000_0000_0001).Offset() < 0
  {
  }
}
