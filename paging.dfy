/** `GetAllPlayers`: the `Int32.TryParse` of the page parameter, and the
    slicing of the cached global list into pages of 1000 characters, both as
    the action computes the offset (in 32-bit arithmetic) and as intended. */
module Paging {
  import opened Wrappers
  import opened Text
  import opened Api

  const CharactersPerPage := 1000
  const Int32Min := -0x8000_0000
  const Int32Max := 0x7FFF_FFFF
  const TwoTo32 := 0x1_0000_0000

  predicate IsInt32(x: int) {
    Int32Min <= x <= Int32Max
  }

  /** C#'s unchecked `int` arithmetic: `x` modulo 2^32, read in two's complement. */
  function Wrap32(x: int): (r: int)
    ensures IsInt32(r)
    ensures (x - r) % TwoTo32 == 0
    ensures IsInt32(x) ==> r == x
  {
    var m := x % TwoTo32;
    if m > Int32Max then m - TwoTo32 else m
  }

  /** The white space `NumberStyles.Integer` allows around a number: U+0009 to U+000D and the space. */
  predicate IsWhite(c: char) {
    c == ' ' || '\t' <= c <= '\r'
  }

  function TrimStart(s: string): (r: string)
    ensures |r| <= |s| && r == s[|s| - |r|..]
    ensures r == [] || !IsWhite(r[0])
    ensures forall k :: 0 <= k < |s| - |r| ==> IsWhite(s[k])
  {
    if s != [] && IsWhite(s[0]) then TrimStart(s[1..]) else s
  }

  function TrimEnd(s: string): (r: string)
    ensures |r| <= |s| && r == s[..|r|]
    ensures r == [] || !IsWhite(r[|r| - 1])
    ensures forall k :: |r| <= k < |s| ==> IsWhite(s[k])
  {
    if s != [] && IsWhite(s[|s| - 1]) then TrimEnd(s[..|s| - 1]) else s
  }

  /** The trailing `'\0'` characters `Int32.TryParse` accepts after the number
      and its trailing white space, removed. */
  function TrimNuls(s: string): (r: string)
    ensures |r| <= |s| && r == s[..|r|]
    ensures r == [] || r[|r| - 1] != '\0'
    ensures forall k :: |r| <= k < |s| ==> s[k] == '\0'
  {
    if s != [] && s[|s| - 1] == '\0' then TrimNuls(s[..|s| - 1]) else s
  }

  /** What remains for the sign and the digits: trailing `'\0'` characters
      removed first, then the white space on both sides. */
  function Trimmed(s: string): string {
    TrimEnd(TrimStart(TrimNuls(s)))
  }

  /** The sign and the digits left once the text is trimmed: an optional
      sign, one or more decimal digits, and a value in range. */
  function ParseSigned(t: string): (r: Option<int>)
    ensures r.Some? ==> IsInt32(r.value)
  {
    if t == [] then None
    else
      var digits := if t[0] == '-' || t[0] == '+' then t[1..] else t;
      if digits == [] || !AllDigits(digits) then None
      else
        var v := if t[0] == '-' then -DigitsValue(digits) else DigitsValue(digits);
        if IsInt32(v) then Some(v) else None
  }

  /** `Int32.TryParse(s, out v)`: optional white space, an optional sign, one
      or more decimal digits, optional white space, optional `'\0'`
      characters, and a value in range. */
  function TryParseInt32(s: string): (r: Option<int>)
    ensures r.Some? ==> IsInt32(r.value)
  {
    ParseSigned(Trimmed(s))
  }

  /** Text that neither starts nor ends with white space, nor ends with
      `'\0'`, is not trimmed. */
  lemma NoTrim(s: string)
    requires s != [] && !IsWhite(s[0]) && !IsWhite(s[|s| - 1]) && s[|s| - 1] != '\0'
    ensures Trimmed(s) == s
  {
    assert TrimNuls(s) == s;
    assert TrimStart(s) == s;
  }

  /** An optional `-` and digits read as their signed value when that is an
      `int`, and are refused otherwise. */
  lemma ParseSignedOf(negative: bool, digits: string)
    requires digits != [] && AllDigits(digits)
    ensures var v := if negative then -DigitsValue(digits) else DigitsValue(digits);
      ParseSigned(if negative then "-" + digits else digits) == if IsInt32(v) then Some(v) else None
  {
    if negative {
      var t := "-" + digits;
      assert t[0] == '-' && t[1..] == digits;
    } else {
      assert IsDigit(digits[0]);
    }
  }

  /** The text of an integer: its sign and its digits. */
  lemma IntToStringParts(i: int)
    ensures var m := NatToString(if i < 0 then -i else i);
      && AllDigits(m)
      && IntToString(i) == (if i < 0 then "-" + m else m)
      && IntToString(i)[|IntToString(i)| - 1] == m[|m| - 1]
  {
    NatToStringDigits(if i < 0 then -i else i);
  }

  /** Every `int` reads back from its own `ToString`, and every integer out
      of range is refused. */
  lemma TryParseRoundTrip(i: int)
    ensures TryParseInt32(IntToString(i)) == if IsInt32(i) then Some(i) else None
  {
    var magnitude := if i < 0 then -i else i;
    var m := NatToString(magnitude);
    IntToStringParts(i);
    NatToStringRoundTrip(magnitude);
    var s := IntToString(i);
    assert IsDigit(m[|m| - 1]);
    NoTrim(s);
    ParseSignedOf(i < 0, m);
  }

  /** A parameter without a single decimal digit ("", "abc", "-") is refused. */
  lemma TryParseNeedsDigit(s: string)
    requires forall i :: 0 <= i < |s| ==> !IsDigit(s[i])
    ensures TryParseInt32(s) == None
  {
    var n := TrimNuls(s);
    var u := TrimStart(n);
    var t := TrimEnd(u);
    if t != [] {
      var k := if t[0] == '-' || t[0] == '+' then 1 else 0;
      var digits := t[k..];
      if digits != [] && AllDigits(digits) {
        assert false;
      }
    }
  }

  /** Text ending with something other than white space keeps its last
      character when its start is trimmed. */
  lemma TrimStartKeepsLast(x: string)
    requires x != [] && !IsWhite(x[|x| - 1])
    ensures TrimStart(x) != [] && TrimStart(x)[|TrimStart(x)| - 1] == x[|x| - 1]
  {
  }

  /** Leading white space is trimmed from the first part only, when that
      part ends with something else. */
  lemma {:induction false} TrimStartAppend(x: string, y: string)
    requires x != [] && !IsWhite(x[|x| - 1])
    ensures TrimStart(x + y) == TrimStart(x) + y
    decreases |x|
  {
    assert (x + y)[0] == x[0];
    if IsWhite(x[0]) {
      var x' := x[1..];
      assert (x + y)[1..] == x' + y;
      TrimStartAppend(x', y);
    }
  }

  /** Trailing white space is trimmed from the last part only, when the
      first part ends with something else. */
  lemma {:induction false} TrimEndAppend(x: string, y: string)
    requires x != [] && !IsWhite(x[|x| - 1])
    ensures TrimEnd(x + y) == x + TrimEnd(y)
    decreases |y|
  {
    if y != [] && IsWhite(y[|y| - 1]) {
      assert (x + y)[..|x + y| - 1] == x + y[..|y| - 1];
      TrimEndAppend(x, y[..|y| - 1]);
    }
  }

  /** A single trailing white character is trimmed from text that ends with
      something else before it. */
  lemma TrimEndOne(x: string, c: char)
    requires x != [] && !IsWhite(x[|x| - 1]) && IsWhite(c)
    ensures TrimEnd(x + [c]) == x
  {
    TrimEndAppend(x, [c]);
    assert TrimEnd([c]) == [];
  }

  /** Text ending in white space keeps its `'\0'` characters: only a
      trailing `'\0'` is removed. */
  lemma TrimNulsWhiteEnd(s: string)
    requires s != [] && IsWhite(s[|s| - 1])
    ensures TrimNuls(s) == s
  {
  }

  /** One white character on either side of `t` is trimmed, and nothing of `t`. */
  lemma TrimPadded(t: string)
    requires t != [] && !IsWhite(t[0]) && !IsWhite(t[|t| - 1])
    ensures Trimmed(" " + t + "\t") == t
  {
    var u := t + "\t";
    var w := " " + u;
    assert " " + t + "\t" == w;
    TrimNulsWhiteEnd(w);
    assert w[1..] == u;
    assert TrimStart(w) == TrimStart(u);
    assert u[0] == t[0];
    assert TrimStart(u) == u;
    TrimEndOne(t, '\t');
  }

  /** A `+` and digits read as the digits' value, when in range. */
  lemma ParseSignedPlus(digits: string)
    requires digits != [] && AllDigits(digits) && IsInt32(DigitsValue(digits))
    ensures ParseSigned("+" + digits) == Some(DigitsValue(digits))
  {
    var t := "+" + digits;
    assert t[0] == '+' && t[1..] == digits;
  }

  /** Surrounding white space, a leading `+` and trailing `'\0'`
      characters are accepted: " +42\t" and " +42\t\0" read as 42. */
  lemma TryParseAcceptsWhiteAndSign(n: nat)
    requires n <= Int32Max
    ensures var signed := "+" + NatToString(n); TryParseInt32(" " + signed + "\t") == Some(n)
    ensures var signed := "+" + NatToString(n); TryParseInt32(" " + signed + "\t" + "\0") == Some(n)
  {
    var m := NatToString(n);
    NatToStringDigits(n);
    NatToStringRoundTrip(n);
    var t := "+" + m;
    var w := " " + t + "\t";
    assert t[|t| - 1] == m[|m| - 1];
    TrimPadded(t);
    ParseSignedPlus(m);
    assert TryParseInt32(w) == ParseSigned(t) == Some(n);
    TryParseTrailingNul(w);
  }

  /** A `'\0'` at the end never changes the answer: "5\0" reads as 5 and
      " +42\t\0" as 42. */
  lemma TryParseTrailingNul(s: string)
    ensures TryParseInt32(s + "\0") == TryParseInt32(s)
  {
    var w := s + "\0";
    assert w[..|w| - 1] == s;
    assert TrimNuls(w) == TrimNuls(s);
  }

  /** Signed digits never end with `'\0'`. */
  lemma ParseSignedNulEnd(t: string)
    requires t != [] && t[|t| - 1] == '\0'
    ensures ParseSigned(t) == None
  {
    var digits := if t[0] == '-' || t[0] == '+' then t[1..] else t;
    if digits != [] {
      assert digits[|digits| - 1] == '\0';
    }
  }

  /** Only `'\0'` may follow the trailing white space: a `'\0'` followed by
      a space, as in "5\0 ", is refused. */
  lemma TryParseNulBeforeWhite(s: string)
    ensures TryParseInt32(s + "\0" + " ") == None
  {
    var x := s + "\0";
    TrimNulsWhiteEnd(x + " ");
    TrimStartAppend(x, " ");
    TrimStartKeepsLast(x);
    TrimEndOne(TrimStart(x), ' ');
    ParseSignedNulEnd(TrimStart(x));
  }

  /** A page of the cached list and the number of pages. */
  datatype PageView<T> = PageView(characters: seq<T>, maxPage: int)

  /** `(int) Math.Ceiling((double) count / CHARACTERS_PER_PAGE)`. */
  function MaxPage(count: nat): (m: nat)
    ensures count == 0 ==> m == 0
    ensures count > 0 ==> (m - 1) * CharactersPerPage < count <= m * CharactersPerPage
  {
    (count + CharactersPerPage - 1) / CharactersPerPage
  }

  /** The page offset `(pageInt - 1) * CHARACTERS_PER_PAGE` as the action
      computes it, in unchecked 32-bit arithmetic. */
  function OffsetAsWritten(page: int): int {
    Wrap32((page - 1) * CharactersPerPage)
  }

  /** The page slicing of `GetAllPlayers` as written: `None` is a list that
      was never computed; the bounds test uses the wrapped offset, and
      `GetRange` throws on a negative one. */
  function PageAsWritten<T>(cache: Option<seq<T>>, page: int): Reply<PageView<T>>
    requires IsInt32(page)
    requires cache.Some? ==> |cache.value| <= Int32Max
  {
    match cache
    case None => Fail(DataNotYetPopulated)
    case Some(list) =>
      if page < 1 || OffsetAsWritten(page) >= |list| then Fail(PageParameterOutOfBounds)
      else if OffsetAsWritten(page) < 0 then Fault
      else
        var offset := OffsetAsWritten(page);
        var count := if |list| - offset < CharactersPerPage then |list| - offset else CharactersPerPage;
        Ok(PageView(list[offset..offset + count], MaxPage(|list|)))
  }

  /** The page slicing of `GetAllPlayers` with the offset computed without
      wrap-around: a page is served exactly when it starts inside the list,
      it holds the next (at most) 1000 characters from its offset, and its
      number never exceeds the page count. */
  function Paginate<T>(cache: Option<seq<T>>, page: int): (r: Reply<PageView<T>>)
    ensures cache.None? ==> r == Fail(DataNotYetPopulated)
    ensures cache.Some? ==>
      (r.Ok? <==> 1 <= page && (page - 1) * CharactersPerPage < |cache.value|)
    ensures cache.Some? && !r.Ok? ==> r == Fail(PageParameterOutOfBounds)
    ensures r.Ok? ==>
      var list, offset := cache.value, (page - 1) * CharactersPerPage;
      && 1 <= |r.value.characters| <= CharactersPerPage
      && offset + |r.value.characters| <= |list|
      && r.value.characters == list[offset..offset + |r.value.characters|]
      && (|r.value.characters| < CharactersPerPage ==> offset + |r.value.characters| == |list|)
      && r.value.maxPage == MaxPage(|list|)
      && page <= r.value.maxPage
  {
    match cache
    case None => Fail(DataNotYetPopulated)
    case Some(list) =>
      var offset := (page - 1) * CharactersPerPage;
      if page < 1 || offset >= |list| then Fail(PageParameterOutOfBounds)
      else
        var count := if |list| - offset < CharactersPerPage then |list| - offset else CharactersPerPage;
        Ok(PageView(list[offset..offset + count], MaxPage(|list|)))
  }

  /** Where the 32-bit offset does not wrap, the action as written and the
      corrected slicing agree. */
  lemma AsWrittenAgreesWithoutWrap<T>(cache: Option<seq<T>>, page: int)
    requires IsInt32(page)
    requires cache.Some? ==> |cache.value| <= Int32Max
    requires page < 1 || (page - 1) * CharactersPerPage <= Int32Max
    ensures PageAsWritten(cache, page) == Paginate(cache, page)
  {
  }

  /** Page 536870913 wraps to offset 0: the action serves the first page
      again, where the request is out of bounds. */
  lemma WrappedPageServesFirstPage<T>(list: seq<T>)
    requires 0 < |list| <= Int32Max
    ensures OffsetAsWritten(536870913) == 0
    ensures PageAsWritten(Some(list), 536870913) == PageAsWritten(Some(list), 1)
    ensures PageAsWritten(Some(list), 536870913).Ok?
    ensures Paginate(Some(list), 536870913) == Fail(PageParameterOutOfBounds)
  {
    assert 536870912 * CharactersPerPage == 125 * TwoTo32;
  }

  /** Page 4294968 wraps to offset -296: it passes the bounds test and
      `GetRange` throws, where the request is out of bounds. */
  lemma WrappedPageFaults<T>(list: seq<T>)
    requires |list| <= Int32Max
    ensures OffsetAsWritten(4294968) == -296
    ensures PageAsWritten(Some(list), 4294968) == Fault
    ensures Paginate(Some(list), 4294968) == Fail(PageParameterOutOfBounds)
  {
    assert 4294967 * CharactersPerPage == TwoTo32 - 296;
  }

  /** The pages from `page` on, concatenated, while they are served. */
  function PagesFrom<T>(list: seq<T>, page: nat): seq<T>
    requires page >= 1
    decreases |list| - (page - 1) * CharactersPerPage
  {
    var r := Paginate(Some(list), page);
    if r.Ok? then r.value.characters + PagesFrom(list, page + 1) else []
  }

  /** The pages from `page` on hold exactly the list from that page's offset. */
  lemma {:induction false} PagesFromSuffix<T>(list: seq<T>, page: nat)
    requires page >= 1
    ensures (page - 1) * CharactersPerPage < |list| ==>
      PagesFrom(list, page) == list[(page - 1) * CharactersPerPage..]
    ensures (page - 1) * CharactersPerPage >= |list| ==> PagesFrom(list, page) == []
    decreases |list| - (page - 1) * CharactersPerPage
  {
    var offset := (page - 1) * CharactersPerPage;
    if offset < |list| {
      PagesFromSuffix(list, page + 1);
      var c := Paginate(Some(list), page).value.characters;
      if offset + CharactersPerPage < |list| {
        assert list[offset..] == c + list[offset + CharactersPerPage..];
      } else {
        assert list[offset..] == c;
      }
    }
  }

  /** Pages 1 to `MaxPage` are all served, and together they are the whole list, in order. */
  lemma PagesCoverList<T>(list: seq<T>)
    ensures PagesFrom(list, 1) == list
    ensures forall p :: 1 <= p <= MaxPage(|list|) ==> Paginate(Some(list), p).Ok?
    ensures Paginate(Some(list), MaxPage(|list|) + 1) == Fail(PageParameterOutOfBounds)
  {
    PagesFromSuffix(list, 1);
    if |list| == 0 {
      assert list[0..] == list;
    }
  }

  /** 2500 characters make three pages: two full ones and one of 500. */
  lemma PagingExample<T>(list: seq<T>)
    requires |list| == 2500
    ensures Paginate(Some(list), 1).Ok? && |Paginate(Some(list), 1).value.characters| == 1000
    ensures Paginate(Some(list), 1).value.maxPage == 3
    ensures Paginate(Some(list), 3).Ok? && |Paginate(Some(list), 3).value.characters| == 500
    ensures Paginate(Some(list), 4) == Fail(PageParameterOutOfBounds)
    ensures Paginate(Some(list), 0) == Fail(PageParameterOutOfBounds)
  {
  }
}
