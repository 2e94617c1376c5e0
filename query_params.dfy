/**
 * Parsing of query-string parameters: Python's `str.split(",")`, the base-10 `int()`
 * conversion of a string, and `BusViewSet._param_to_ints`, which converts a string
 * like "1,2,3" into the list of integers [1, 2, 3].
 */
module QueryParams {
  import opened Wrappers

  /** `s.split(",")`: the pieces between commas, empty pieces included; never empty. */
  function Split(s: string): (r: seq<string>)
    ensures |r| >= 1
    ensures forall k :: 0 <= k < |r| ==> ',' !in r[k]
    decreases |s|
  {
    if s == [] then [""]
    else if s[0] == ',' then [""] + Split(s[1..])
    else
      var rest := Split(s[1..]);
      [[s[0]] + rest[0]] + rest[1..]
  }

  /** `",".join(pieces)`. */
  function Join(pieces: seq<string>): string
    requires |pieces| >= 1
    decreases |pieces|
  {
    if |pieces| == 1 then pieces[0] else pieces[0] + "," + Join(pieces[1..])
  }

  /** Gluing a prefix onto the first piece prefixes the join. */
  lemma {:induction false} JoinGlue(x: string, rest: seq<string>)
    requires |rest| >= 1
    ensures Join([x + rest[0]] + rest[1..]) == x + Join(rest)
  {
    var r := [x + rest[0]] + rest[1..];
    if |rest| > 1 {
      var tail := Join(rest[1..]);
      assert r[0] == x + rest[0] && r[1..] == rest[1..];
      assert Join(r) == r[0] + "," + tail;
      assert Join(rest) == rest[0] + "," + tail;
      assert (x + rest[0]) + "," + tail == x + (rest[0] + "," + tail);
    }
  }

  /** Joining the pieces of a split gives back the string. */
  lemma {:induction false} JoinSplit(s: string)
    ensures Join(Split(s)) == s
    decreases |s|
  {
    if s != [] {
      JoinSplit(s[1..]);
      var rest := Split(s[1..]);
      var sp := Split(s);
      if s[0] == ',' {
        assert sp == [""] + rest;
        assert |sp| > 1 && sp[0] == "" && sp[1..] == rest;
        assert Join(sp) == "" + "," + Join(rest);
      } else {
        assert sp == [[s[0]] + rest[0]] + rest[1..];
        JoinGlue([s[0]], rest);
      }
      assert s == [s[0]] + s[1..];
    }
  }

  /** Splitting a comma-free prefix glues it to the first piece of the rest. */
  lemma {:induction false} SplitPrefix(p: string, t: string)
    requires ',' !in p
    ensures Split(p + t) == [p + Split(t)[0]] + Split(t)[1..]
    decreases |p|
  {
    if p != [] {
      assert (p + t)[0] == p[0] && (p + t)[1..] == p[1..] + t;
      SplitPrefix(p[1..], t);
      var rest := Split(p[1..] + t);
      assert rest == [p[1..] + Split(t)[0]] + Split(t)[1..];
      assert Split(p + t) == [[p[0]] + rest[0]] + rest[1..];
      assert rest[1..] == Split(t)[1..];
      assert [p[0]] + (p[1..] + Split(t)[0]) == p + Split(t)[0];
    } else {
      assert p + t == t;
      assert p + Split(t)[0] == Split(t)[0];
      assert Split(t) == [Split(t)[0]] + Split(t)[1..];
    }
  }

  /** Splitting a join of comma-free pieces gives back the pieces. */
  lemma {:induction false} SplitJoin(pieces: seq<string>)
    requires |pieces| >= 1
    requires forall k :: 0 <= k < |pieces| ==> ',' !in pieces[k]
    ensures Split(Join(pieces)) == pieces
    decreases |pieces|
  {
    if |pieces| == 1 {
      SplitPrefix(pieces[0], "");
      assert pieces[0] + "" == pieces[0];
    } else {
      var rest := pieces[1..];
      SplitJoin(rest);
      var t := "," + Join(rest);
      assert t[0] == ',' && t[1..] == Join(rest);
      assert Split(t) == [""] + rest;
      SplitPrefix(pieces[0], t);
      assert pieces[0] + "," + Join(rest) == pieces[0] + t;
      assert pieces[0] + "" == pieces[0];
      assert pieces == [pieces[0]] + rest;
    }
  }

  /** The ASCII white space CPython's `int()` skips around a literal: tab, LF, VT, FF, CR and space. */
  predicate IsSpace(c: char) {
    c == ' ' || (9 <= c as int <= 13)
  }

  predicate IsDigit(c: char) {
    '0' <= c <= '9'
  }

  /** `s.strip()` restricted to the white space above: drops leading and trailing spaces. */
  function TrimLeft(s: string): string
    decreases |s|
  {
    if s != [] && IsSpace(s[0]) then TrimLeft(s[1..]) else s
  }

  function TrimRight(s: string): string
    decreases |s|
  {
    if s != [] && IsSpace(s[|s| - 1]) then TrimRight(s[..|s| - 1]) else s
  }

  function Strip(s: string): string {
    TrimRight(TrimLeft(s))
  }

  /** No two underscores in a row. */
  predicate NoDoubleUnderscore(s: string)
    decreases |s|
  {
    |s| < 2 || (!(s[0] == '_' && s[1] == '_') && NoDoubleUnderscore(s[1..]))
  }

  /** Python's decimal digit part: digits, with single underscores allowed between digits. */
  predicate DigitPart(s: string) {
    && s != []
    && IsDigit(s[0]) && IsDigit(s[|s| - 1])
    && (forall k :: 0 <= k < |s| ==> IsDigit(s[k]) || s[k] == '_')
    && NoDoubleUnderscore(s)
  }

  lemma {:induction false} DigitsHaveNoDoubleUnderscore(s: string)
    requires forall k :: 0 <= k < |s| ==> IsDigit(s[k])
    ensures NoDoubleUnderscore(s)
    decreases |s|
  {
    if |s| >= 2 {
      DigitsHaveNoDoubleUnderscore(s[1..]);
    }
  }

  function DropUnderscores(s: string): (r: string)
    ensures forall k :: 0 <= k < |r| ==> r[k] != '_'
    ensures (forall k :: 0 <= k < |s| ==> s[k] != '_') ==> r == s
  {
    if s == [] then []
    else (if s[0] == '_' then [] else [s[0]]) + DropUnderscores(s[1..])
  }

  /** The value of a string of decimal digits, most significant first. */
  function DigitsValue(s: string): nat
    decreases |s|
  {
    if s == [] then 0
    else DigitsValue(s[..|s| - 1]) * 10 + if IsDigit(s[|s| - 1]) then (s[|s| - 1] - '0') as nat else 0
  }

  /**
   * CPython's default limit on the number of digits in an integer-string conversion
   * (`sys.int_info.default_max_str_digits`); longer literals raise ValueError.
   */
  const MaxStrDigits: nat := 4300

  /**
   * The value of a digit part, or None when the string is not one or has more digits
   * (underscores not counted) than the conversion limit allows.
   */
  function ParseDigits(body: string): Option<nat> {
    if DigitPart(body) && |DropUnderscores(body)| <= MaxStrDigits then Some(DigitsValue(DropUnderscores(body)))
    else None
  }

  /** An optionally signed digit part, already stripped of white space. */
  function ParseSigned(t: string): Option<int> {
    if t == [] then None
    else if t[0] == '-' then
      match ParseDigits(t[1..])
      case None => None
      case Some(n) => Some(-(n as int))
    else if t[0] == '+' then
      match ParseDigits(t[1..])
      case None => None
      case Some(n) => Some(n)
    else
      match ParseDigits(t)
      case None => None
      case Some(n) => Some(n)
  }

  /**
   * `int(s)` in base 10: optional surrounding white space, an optional sign, then a digit
   * part; anything else is a ValueError (None here).
   */
  function ParseInt(s: string): Option<int> {
    ParseSigned(Strip(s))
  }

  lemma StripUnspaced(s: string)
    requires s != [] && !IsSpace(s[0]) && !IsSpace(s[|s| - 1])
    ensures Strip(s) == s
  {
    assert TrimLeft(s) == s;
  }

  /** Python's `str(n)` of a natural number. */
  function NatToString(n: nat): (r: string)
    ensures r != [] && IsDigit(r[0]) && IsDigit(r[|r| - 1])
    ensures forall k :: 0 <= k < |r| ==> IsDigit(r[k])
  {
    (if n < 10 then [] else NatToString(n / 10)) + ['0' + (n % 10) as char]
  }

  /** Python's `str(n)`. */
  function IntToString(n: int): string {
    if n < 0 then "-" + NatToString(-n) else NatToString(n)
  }

  /** `str(n)` stays within the conversion limit, so it does not raise. */
  predicate WithinStrDigits(n: int) {
    |NatToString(if n < 0 then -n else n)| <= MaxStrDigits
  }

  lemma {:induction false} NatToStringValue(n: nat)
    ensures DigitsValue(NatToString(n)) == n
  {
    var r := NatToString(n);
    assert r[..|r| - 1] == if n < 10 then [] else NatToString(n / 10);
    if n >= 10 {
      NatToStringValue(n / 10);
    }
  }

  /** A non-empty string of digits is a digit part, read as its value. */
  lemma ParseDigitsOfDigits(d: string)
    requires d != [] && |d| <= MaxStrDigits && forall k :: 0 <= k < |d| ==> IsDigit(d[k])
    ensures ParseDigits(d) == Some(DigitsValue(d))
  {
    DigitsHaveNoDoubleUnderscore(d);
    assert DropUnderscores(d) == d;
  }

  /** `int(str(n)) == n` wherever `str(n)` is within the conversion limit. */
  lemma ParseIntOfString(n: int)
    requires WithinStrDigits(n)
    ensures ParseInt(IntToString(n)) == Some(n)
  {
    var m: nat := if n < 0 then -n else n;
    var d := NatToString(m);
    NatToStringValue(m);
    ParseDigitsOfDigits(d);
    var s := IntToString(n);
    if n < 0 {
      assert s == "-" + d && s[1..] == d;
      assert s[|s| - 1] == d[|d| - 1];
    } else {
      assert s == d && s[0] != '-' && s[0] != '+';
    }
    StripUnspaced(s);
  }

  /**
   * The comprehension over already converted pieces: the values in order, or the first
   * piece whose conversion raised.
   */
  function Collect(pieces: seq<string>, parsed: seq<Option<int>>): (r: Result<seq<int>, string>)
    requires |parsed| == |pieces|
    ensures r.Success? <==> forall k :: 0 <= k < |parsed| ==> parsed[k].Some?
    ensures r.Success? ==> |r.value| == |pieces|
    ensures r.Success? ==> forall k :: 0 <= k < |parsed| ==> parsed[k] == Some(r.value[k])
    ensures r.Failure? ==> exists k :: 0 <= k < |pieces| && pieces[k] == r.error && parsed[k].None?
    decreases |pieces|
  {
    if pieces == [] then Success([])
    else match parsed[0]
      case None => Failure(pieces[0])
      case Some(v) =>
        match Collect(pieces[1..], parsed[1..])
        case Failure(e) => Failure(e)
        case Success(vs) => Success([v] + vs)
  }

  /**
   * `_param_to_ints` on the pieces: converts each piece in order and raises on the first
   * piece that is not an integer literal (the Failure carries that piece).
   */
  function ParseAll(pieces: seq<string>): (r: Result<seq<int>, string>)
    ensures r.Success? <==> forall k :: 0 <= k < |pieces| ==> ParseInt(pieces[k]).Some?
    ensures r.Success? ==> |r.value| == |pieces|
    ensures r.Success? ==> forall k :: 0 <= k < |pieces| ==> ParseInt(pieces[k]) == Some(r.value[k])
    ensures r.Failure? ==> r.error in pieces && ParseInt(r.error).None?
  {
    var parsed := seq(|pieces|, k requires 0 <= k < |pieces| => ParseInt(pieces[k]));
    assert forall k :: 0 <= k < |pieces| ==> parsed[k] == ParseInt(pieces[k]);
    Collect(pieces, parsed)
  }

  /** `BusViewSet._param_to_ints`: `[int(piece) for piece in query_string.split(",")]`. */
  function ParamToInts(query: string): (r: Result<seq<int>, string>)
    ensures r.Success? <==> forall piece :: piece in Split(query) ==> ParseInt(piece).Some?
    ensures r.Success? ==> |r.value| == |Split(query)|
    ensures r.Success? ==> forall k :: 0 <= k < |Split(query)| ==> ParseInt(Split(query)[k]) == Some(r.value[k])
    ensures r.Failure? ==> r.error in Split(query) && ParseInt(r.error).None?
  {
    ParseAll(Split(query))
  }

  /** The comma-separated rendering of a non-empty list of integers. */
  function JoinInts(xs: seq<int>): string
    requires |xs| >= 1
  {
    Join(seq(|xs|, k requires 0 <= k < |xs| => IntToString(xs[k])))
  }

  /** Parsing the comma-separated rendering of a list of integers gives back the list. */
  lemma ParamToIntsOfJoin(xs: seq<int>)
    requires |xs| >= 1
    requires forall k :: 0 <= k < |xs| ==> WithinStrDigits(xs[k])
    ensures ParamToInts(JoinInts(xs)) == Success(xs)
  {
    var pieces := seq(|xs|, k requires 0 <= k < |xs| => IntToString(xs[k]));
    forall k | 0 <= k < |xs| ensures ',' !in pieces[k] && ParseInt(pieces[k]) == Some(xs[k]) {
      ParseIntOfString(xs[k]);
    }
    SplitJoin(pieces);
    var r := ParseAll(pieces);
    assert r.Success?;
    assert r.value == xs;
  }

  lemma JoinIntsExample()
    ensures JoinInts([1, 2, 3]) == "1,2,3"
  {
    var p3 := ["1", "2", "3"];
    assert p3[1..] == ["2", "3"] && ["2", "3"][1..] == ["3"];
    assert Join(["2", "3"]) == "2,3";
    assert Join(p3) == "1,2,3";
    assert NatToString(1) == "1" && NatToString(2) == "2" && NatToString(3) == "3";
    var xs := [1, 2, 3];
    assert seq(3, k requires 0 <= k < 3 => IntToString(xs[k])) == p3;
  }

  /** The documented example: "1,2,3" becomes [1, 2, 3]. */
  lemma ParamToIntsExample()
    ensures ParamToInts("1,2,3") == Success([1, 2, 3])
  {
    JoinIntsExample();
    assert NatToString(1) == "1" && NatToString(2) == "2" && NatToString(3) == "3";
    ParamToIntsOfJoin([1, 2, 3]);
  }

  /** A piece that is not an integer literal makes the whole conversion fail. */
  lemma ParamToIntsRejectsBadPiece(query: string, k: nat)
    requires k < |Split(query)| && ParseInt(Split(query)[k]).None?
    ensures ParamToInts(query).Failure?
    ensures ParseInt(ParamToInts(query).error).None?
  {
  }

  /** An ASCII information separator (0x1C) is not white space to `int()`: the literal is refused. */
  lemma ParseIntRejectsInformationSeparator()
    ensures ParseInt("\U{1C}1").None?
  {
  }

  /** A run of more than MaxStrDigits digits exceeds the conversion limit: `int()` refuses it. */
  lemma ParseIntRejectsOverlongLiteral(d: string)
    requires |d| > MaxStrDigits && forall k :: 0 <= k < |d| ==> IsDigit(d[k])
    ensures ParseInt(d).None?
  {
    StripUnspaced(d);
    assert DropUnderscores(d) == d;
  }
}
