/**
 * The pagination parameter decorators
 * (src/common/decorators/pagination.decorator.ts): `PagePagination`,
 * `OffsetPagination` and `CursorPagination` read `page`, `offset`, `limit`
 * and `cursor` from the query string with JavaScript's `parseInt`, fall back
 * to defaults on anything falsy, and clamp the limit.
 *
 * The query string is a map from parameter name to its (single) value; an
 * absent key is `undefined`.
 */
module PaginationDecorator {
  import opened Wrappers
  import opened Ids
  import opened Responses

  // ---------------------------------------------------------------------------
  // parseInt

  /** A JavaScript number as parseInt can produce it: NaN or an integer. */
  datatype Num = NaN | Int(value: int)

  /** The white space and line terminators `parseInt` skips before the number. */
  predicate IsJsSpace(c: char)
  {
    c == '\t' || c == '\n' || c == '\U{000B}' || c == '\U{000C}' || c == '\r' || c == ' '
    || c == '\U{00A0}' || c == '\U{1680}' || ('\U{2000}' <= c <= '\U{200A}')
    || c == '\U{2028}' || c == '\U{2029}' || c == '\U{202F}' || c == '\U{205F}'
    || c == '\U{3000}' || c == '\U{FEFF}'
  }

  /** The value of a digit character in base 16 (the base-10 digits are its first ten). */
  function DigitValue(c: char): (d: nat)
    requires IsHexDigit(c)
    ensures d < 16
    ensures IsAsciiDigit(c) ==> d < 10
  {
    if IsAsciiDigit(c) then c as int - '0' as int
    else if 'a' <= c <= 'f' then c as int - 'a' as int + 10
    else c as int - 'A' as int + 10
  }

  /** A digit of base 16 when `hex`, of base 10 otherwise. */
  predicate IsDigitIn(c: char, hex: bool)
  {
    if hex then IsHexDigit(c) else IsAsciiDigit(c)
  }

  /** The length of the longest prefix of `s` made of digits of the base. */
  function DigitRun(s: string, hex: bool): (k: nat)
    ensures k <= |s|
    ensures forall i :: 0 <= i < k ==> IsDigitIn(s[i], hex)
    ensures k < |s| ==> !IsDigitIn(s[k], hex)
  {
    if s != [] && IsDigitIn(s[0], hex) then 1 + DigitRun(s[1..], hex) else 0
  }

  /** The value of a string of digits, most significant first. */
  function DigitsValue(s: string, hex: bool): nat
    requires forall i :: 0 <= i < |s| ==> IsDigitIn(s[i], hex)
  {
    if s == [] then 0
    else
      var init, last := s[..|s| - 1], s[|s| - 1];
      assert IsDigitIn(last, hex);
      var v := DigitsValue(init, hex);
      (if hex then 16 * v else 10 * v) + DigitValue(last)
  }

  function TrimStart(s: string): (t: string)
    ensures |t| <= |s| && t == s[|s| - |t|..]
    ensures t == [] || !IsJsSpace(t[0])
  {
    if s != [] && IsJsSpace(s[0]) then TrimStart(s[1..]) else s
  }

  /**
   * `parseInt(s)` without a radix: leading white space is skipped, an optional
   * sign is read, a `0x`/`0X` prefix selects base 16, and the longest run of
   * digits that follows is the number; without any digit the result is NaN.
   */
  function ParseInt(s: string): (n: Num)
  {
    var t := TrimStart(s);
    var sign := if t != [] && t[0] == '-' then -1 else 1;
    var u := if t != [] && (t[0] == '-' || t[0] == '+') then t[1..] else t;
    var hex := |u| >= 2 && u[0] == '0' && (u[1] == 'x' || u[1] == 'X');
    var body := if hex then u[2..] else u;
    var k := DigitRun(body, hex);
    if k == 0 then NaN else Int(sign * DigitsValue(body[..k], hex))
  }

  /** `parseInt(req.query[name] as string)`: an absent parameter is `undefined`, which parses to NaN. */
  function ParseQueryInt(query: map<string, string>, name: string): Num
  {
    if name in query then ParseInt(query[name]) else NaN
  }

  /** The decimal numeral of a natural number, as a client writes it. */
  function Decimal(n: nat): (s: string)
    ensures |s| >= 1
    ensures forall i :: 0 <= i < |s| ==> IsAsciiDigit(s[i])
  {
    if n < 10 then [('0' as int + n) as char] else Decimal(n / 10) + [('0' as int + n % 10) as char]
  }

  lemma {:induction false} DecimalValue(n: nat)
    ensures forall i :: 0 <= i < |Decimal(n)| ==> IsDigitIn(Decimal(n)[i], false)
    ensures DigitsValue(Decimal(n), false) == n
  {
    var s := Decimal(n);
    forall i | 0 <= i < |s| ensures IsDigitIn(s[i], false) {
      assert IsAsciiDigit(s[i]);
    }
    if n >= 10 {
      DecimalValue(n / 10);
      assert s[..|s| - 1] == Decimal(n / 10);
    }
  }

  /** A run of digits followed by something that is not a digit of the base ends where that begins. */
  lemma {:induction false} DigitRunStops(d: string, rest: string, hex: bool)
    requires forall i :: 0 <= i < |d| ==> IsDigitIn(d[i], hex)
    requires rest == [] || !IsDigitIn(rest[0], hex)
    ensures DigitRun(d + rest, hex) == |d|
  {
    if d != [] {
      assert (d + rest)[1..] == d[1..] + rest;
      DigitRunStops(d[1..], rest, hex);
    } else {
      assert d + rest == rest;
    }
  }

  /** A string that starts with a decimal digit, and not with `0x`, is read in base 10 from its first character. */
  lemma ParseIntPlainDecimal(s: string)
    requires s != [] && IsAsciiDigit(s[0])
    requires |s| >= 2 ==> s[1] != 'x' && s[1] != 'X'
    ensures ParseInt(s) == Int(DigitsValue(s[..DigitRun(s, false)], false))
  {
    assert !IsJsSpace(s[0]);
    assert TrimStart(s) == s;
    assert s[0] != '-' && s[0] != '+';
    assert !(|s| >= 2 && s[0] == '0' && (s[1] == 'x' || s[1] == 'X'));
    assert IsDigitIn(s[0], false);
    assert DigitRun(s, false) > 0;
  }

  /**
   * `parseInt` reads back the decimal numeral of any natural number, whatever
   * text follows it that is neither a digit nor an `x` ("25abc" is 25; "0x1"
   * would be read in base 16).
   */
  lemma ParseIntDecimal(n: nat, rest: string)
    requires rest == [] || (!IsAsciiDigit(rest[0]) && rest[0] != 'x' && rest[0] != 'X')
    ensures ParseInt(Decimal(n) + rest) == Int(n)
  {
    var d := Decimal(n);
    var s := d + rest;
    DecimalValue(n);
    assert s[0] == d[0];
    if |s| >= 2 {
      assert s[1] == if |d| >= 2 then d[1] else rest[0];
    }
    ParseIntPlainDecimal(s);
    assert rest == [] || !IsDigitIn(rest[0], false);
    DigitRunStops(d, rest, false);
    assert s[..|d|] == d;
  }

  /** `parseInt` of a string with no digit at all (an empty or alphabetic value) is NaN. */
  lemma ParseIntNoDigits(s: string)
    requires forall i :: 0 <= i < |s| ==> !IsHexDigit(s[i])
    ensures ParseInt(s) == NaN
  {
    var t := TrimStart(s);
    var u := if t != [] && (t[0] == '-' || t[0] == '+') then t[1..] else t;
    if u != [] {
      var j := |s| - |u|;
      assert u[0] == s[j];
      assert !IsHexDigit(u[0]) && !IsAsciiDigit(u[0]);
    }
  }

  // ---------------------------------------------------------------------------
  // Defaults and clamping

  /** `x || d` where `x` is an optional number: undefined and 0 are falsy. */
  function Or(x: Option<int>, d: int): (r: int)
    ensures x.Some? && x.value != 0 ==> r == x.value
    ensures x.None? || x.value == 0 ==> r == d
  {
    if x.Some? && x.value != 0 then x.value else d
  }

  /** `parseInt(...) || d`: NaN and 0 are falsy. */
  function OrNum(n: Num, d: int): (r: int)
    ensures n.Int? && n.value != 0 ==> r == n.value
    ensures n.NaN? || n.value == 0 ==> r == d
  {
    if n.Int? && n.value != 0 then n.value else d
  }

  /**
   * The limit shared by the three decorators (lines 40-45, 77-82, 109-114):
   * a falsy or non-positive value becomes the default, one above the maximum
   * becomes the maximum.
   */
  function ClampLimit(parsed: Num, defaultLimit: int, maxLimit: int): (limit: int)
    ensures 1 <= defaultLimit <= maxLimit ==> 1 <= limit <= maxLimit
    ensures parsed.Int? && 1 <= parsed.value <= maxLimit ==> limit == parsed.value
    ensures parsed.Int? && parsed.value >= 1 && parsed.value > maxLimit ==> limit == maxLimit
    ensures (parsed.NaN? || parsed.value < 1) && 1 <= defaultLimit <= maxLimit ==> limit == defaultLimit
  {
    var limit := OrNum(parsed, defaultLimit);
    if limit < 1 then defaultLimit
    else if limit > maxLimit then maxLimit
    else limit
  }

  // ---------------------------------------------------------------------------
  // The decorators

  /** The decorator options; an option left out (or `data` itself undefined) is None. */
  datatype PageOptions = PageOptions(defaultPage: Option<int>, defaultLimit: Option<int>, defaultMaxLimit: Option<int>)
  datatype OffsetOptions = OffsetOptions(defaultOffset: Option<int>, defaultLimit: Option<int>, defaultMaxLimit: Option<int>)
  datatype CursorOptions = CursorOptions(defaultLimit: Option<int>, maxLimit: Option<int>,
                                         cursorPipe: Option<string -> Result<string, Exception>>)

  datatype PageQuery = PageQuery(page: int, limit: int)
  datatype OffsetQuery = OffsetQuery(offset: int, limit: int)
  datatype CursorParams = CursorParams(cursor: Option<string>, limit: int)

  const DefaultLimit: int := 10
  const DefaultMaxLimit: int := 100

  /** PagePagination. */
  function PagePagination(data: PageOptions, query: map<string, string>): (q: PageQuery)
    ensures Or(data.defaultPage, 1) >= 1 ==> q.page >= 1
    ensures var p := ParseQueryInt(query, "page"); p.Int? && p.value >= 1 ==> q.page == p.value
    ensures var p := ParseQueryInt(query, "page"); p.NaN? || p.value < 1 ==> q.page == Or(data.defaultPage, 1)
    ensures q.limit == ClampLimit(ParseQueryInt(query, "limit"), Or(data.defaultLimit, DefaultLimit),
                                  Or(data.defaultMaxLimit, DefaultMaxLimit))
  {
    var defaultPage := Or(data.defaultPage, 1);
    var defaultLimit := Or(data.defaultLimit, DefaultLimit);
    var defaultMaxLimit := Or(data.defaultMaxLimit, DefaultMaxLimit);
    var page := OrNum(ParseQueryInt(query, "page"), defaultPage);
    var page := if page < 1 then defaultPage else page;
    PageQuery(page, ClampLimit(ParseQueryInt(query, "limit"), defaultLimit, defaultMaxLimit))
  }

  /** OffsetPagination: an explicit offset of 0 is falsy, so it too becomes the default. */
  function OffsetPagination(data: OffsetOptions, query: map<string, string>): (q: OffsetQuery)
    ensures Or(data.defaultOffset, 0) >= 0 ==> q.offset >= 0
    ensures var o := ParseQueryInt(query, "offset"); o.Int? && o.value >= 1 ==> q.offset == o.value
    ensures var o := ParseQueryInt(query, "offset"); o.NaN? || o.value < 1 ==> q.offset == Or(data.defaultOffset, 0)
    ensures q.limit == ClampLimit(ParseQueryInt(query, "limit"), Or(data.defaultLimit, DefaultLimit),
                                  Or(data.defaultMaxLimit, DefaultMaxLimit))
  {
    var defaultOffset := Or(data.defaultOffset, 0);
    var defaultLimit := Or(data.defaultLimit, DefaultLimit);
    var defaultMaxLimit := Or(data.defaultMaxLimit, DefaultMaxLimit);
    var offset := OrNum(ParseQueryInt(query, "offset"), defaultOffset);
    var offset := if offset < 0 then defaultOffset else offset;
    OffsetQuery(offset, ClampLimit(ParseQueryInt(query, "limit"), defaultLimit, defaultMaxLimit))
  }

  const UuidV4Expected: Exception := BadRequestText("Validation failed (uuid v 4 is expected)")

  /** `new ParseUUIDPipe({ version: '4' })`. */
  function ParseUuidV4(s: string): (r: Result<string, Exception>)
    ensures r.Success? <==> IsUuidV4(s)
    ensures r.Success? ==> r.value == s
    ensures r.Failure? ==> r.error == UuidV4Expected
  {
    if IsUuidV4(s) then Success(s) else Failure(UuidV4Expected)
  }

  /** CursorPagination: an absent or empty cursor is null; any other passes through the cursor pipe. */
  function CursorPagination(data: CursorOptions, query: map<string, string>): (r: Result<CursorParams, Exception>)
    ensures var pipe := if data.cursorPipe.Some? then data.cursorPipe.value else ParseUuidV4;
      && ("cursor" !in query || query["cursor"] == "" ==> r.Success? && r.value.cursor == None)
      && ("cursor" in query && query["cursor"] != "" ==>
            && (r.Success? <==> pipe(query["cursor"]).Success?)
            && (r.Success? ==> r.value.cursor == Some(pipe(query["cursor"]).value))
            && (r.Failure? ==> r.error == pipe(query["cursor"]).error))
    ensures r.Success? ==>
      r.value.limit == ClampLimit(ParseQueryInt(query, "limit"), Or(data.defaultLimit, DefaultLimit), Or(data.maxLimit, DefaultMaxLimit))
  {
    var defaultLimit := Or(data.defaultLimit, DefaultLimit);
    var maxLimit := Or(data.maxLimit, DefaultMaxLimit);
    var cursorPipe := if data.cursorPipe.Some? then data.cursorPipe.value else ParseUuidV4;
    var limit := ClampLimit(ParseQueryInt(query, "limit"), defaultLimit, maxLimit);
    var cursor := if "cursor" in query && query["cursor"] != "" then Some(query["cursor"]) else None;
    if cursor.None? then Success(CursorParams(None, limit))
    else match cursorPipe(cursor.value)
      case Success(c) => Success(CursorParams(Some(c), limit))
      case Failure(e) => Failure(e)
  }

  /**
   * With no options the limit is 10 when the client gives none, always lies in
   * 1..100, and a cursor that is not a version-4 UUID is refused.
   */
  lemma CursorDefaults(query: map<string, string>)
    ensures var r := CursorPagination(CursorOptions(None, None, None), query);
      && (r.Success? ==> 1 <= r.value.limit <= 100)
      && ("limit" !in query && r.Success? ==> r.value.limit == 10)
      && ("cursor" in query && query["cursor"] != "" ==> (r.Success? <==> IsUuidV4(query["cursor"])))
      && ("cursor" in query && query["cursor"] != "" && r.Failure? ==> r.error == UuidV4Expected)
  {
  }

  /** A limit written as a decimal numeral within the bounds is taken as given, and one above 100 becomes 100. */
  lemma CursorLimitFromClient(query: map<string, string>, n: nat)
    requires "limit" in query && query["limit"] == Decimal(n)
    ensures var r := CursorPagination(CursorOptions(None, None, None), query);
      && (r.Success? && 1 <= n <= 100 ==> r.value.limit == n)
      && (r.Success? && n > 100 ==> r.value.limit == 100)
      && (r.Success? && n == 0 ==> r.value.limit == 10)
  {
    ParseIntDecimal(n, []);
    assert Decimal(n) + [] == Decimal(n);
  }
}
