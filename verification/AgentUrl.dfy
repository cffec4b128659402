/** The download URL: a base, a query of keys with values (section 3.4 of RFC 3986) and a fragment.  Keys and
    values are octets; the query is printed in the order of its keys. */
module AgentUrl {
  import opened Common
  import opened Text

  type Octet = n: int | 0 <= n < 256
  type Octets = seq<Octet>

  // ------------------------------------------------------------------ the order of keys

  predicate Less(a: Octets, b: Octets) {
    b != [] && (a == [] || a[0] < b[0] || (a[0] == b[0] && Less(a[1..], b[1..])))
  }

  lemma {:induction false} LessTotal(a: Octets, b: Octets)
    ensures a == b || Less(a, b) || Less(b, a)
    ensures !(Less(a, b) && Less(b, a)) && !Less(a, a)
  {
    if a != [] && b != [] {
      LessTotal(a[1..], b[1..]);
      LessTotal(a[1..], a[1..]);
      if a[0] == b[0] && a[1..] == b[1..] {
        assert a == [a[0]] + a[1..] && b == [b[0]] + b[1..];
      }
    } else if a != [] {
      LessTotal(a[1..], a[1..]);
    }
  }

  lemma {:induction false} LessTransitive(a: Octets, b: Octets, c: Octets)
    requires Less(a, b) && Less(b, c)
    ensures Less(a, c)
  {
    if a != [] && a[0] == b[0] == c[0] {
      LessTransitive(a[1..], b[1..], c[1..]);
    }
  }

  // ------------------------------------------------------------------ queries

  datatype Entry = Entry(key: Octets, values: seq<Octets>)

  type Query = seq<Entry>

  /** Keys in increasing order, each with at least one value. */
  ghost predicate Ordered(q: Query) {
    && (forall i, j :: 0 <= i < j < |q| ==> Less(q[i].key, q[j].key))
    && (forall i :: 0 <= i < |q| ==> q[i].values != [])
  }

  function ValuesOf(q: Query, key: Octets): seq<Octets> {
    if q == [] then [] else if q[0].key == key then q[0].values else ValuesOf(q[1..], key)
  }

  /** Puts `update` of the key's values (none when the key is absent) in the key's place. */
  function Change(q: Query, key: Octets, value: Octets, append: bool): Query {
    if q == [] || Less(key, q[0].key) then [Entry(key, [value])] + q
    else if q[0].key == key then [Entry(key, if append then q[0].values + [value] else [value])] + q[1..]
    else [q[0]] + Change(q[1..], key, value, append)
  }

  function Add(q: Query, key: Octets, value: Octets): Query {
    Change(q, key, value, true)
  }

  function Set(q: Query, key: Octets, value: Octets): Query {
    Change(q, key, value, false)
  }

  lemma {:induction false} ChangeKeepsOrder(q: Query, key: Octets, value: Octets, append: bool)
    requires Ordered(q)
    ensures Ordered(Change(q, key, value, append))
    ensures forall e <- Change(q, key, value, append) :: e.key == key || exists d <- q :: d.key == e.key
  {
    var r := Change(q, key, value, append);
    if q == [] {
    } else if Less(key, q[0].key) {
      BelowAll(q, key);
      assert r[1..] == q;
    } else if q[0].key == key {
      assert r[1..] == q[1..];
    } else {
      LessTotal(key, q[0].key);
      ChangeKeepsOrder(q[1..], key, value, append);
      assert r[1..] == Change(q[1..], key, value, append);
      forall j | 1 <= j < |r| ensures Less(r[0].key, r[j].key) {
        assert r[j] in r[1..];
      }
    }
  }

  /** A change is made to the values of its key only. */
  lemma {:induction false} ChangeMeaning(q: Query, key: Octets, value: Octets, append: bool)
    requires Ordered(q)
    ensures Ordered(Change(q, key, value, append))
    ensures ValuesOf(Change(q, key, value, append), key) == (if append then ValuesOf(q, key) else []) + [value]
    ensures forall other :: other != key ==> ValuesOf(Change(q, key, value, append), other) == ValuesOf(q, other)
  {
    ChangeKeepsOrder(q, key, value, append);
    var r := Change(q, key, value, append);
    if q == [] {
    } else if Less(key, q[0].key) {
      BelowAll(q, key);
      assert r[1..] == q;
    } else if q[0].key == key {
      assert r[1..] == q[1..];
    } else {
      ChangeMeaning(q[1..], key, value, append);
      assert r[1..] == Change(q[1..], key, value, append);
    }
  }

  lemma BelowAll(q: Query, key: Octets)
    requires Ordered(q) && q != [] && Less(key, q[0].key)
    ensures forall i :: 0 <= i < |q| ==> Less(key, q[i].key)
    ensures ValuesOf(q, key) == []
    decreases |q|
  {
    forall i | 0 < i < |q| ensures Less(key, q[i].key) {
      LessTransitive(key, q[0].key, q[i].key);
    }
    LessTotal(key, q[0].key);
    if |q| > 1 {
      BelowAll(q[1..], key);
    }
  }

  // ------------------------------------------------------------------ percent encoding

  predicate Unreserved(n: Octet) {
    || 'a' as int <= n <= 'z' as int || 'A' as int <= n <= 'Z' as int || '0' as int <= n <= '9' as int
    || n in {'-' as int, '_' as int, '.' as int, '~' as int}
  }

  function UpperHex(n: int): char
    requires 0 <= n < 16
  {
    if n < 10 then (n + '0' as int) as char else (n - 10 + 'A' as int) as char
  }

  function EscapeOctet(n: Octet): string {
    if Unreserved(n) then [n as char]
    else if n == ' ' as int then "+"
    else ['%', UpperHex(n / 16), UpperHex(n % 16)]
  }

  function Escape(text: Octets): string {
    if text == [] then "" else EscapeOctet(text[0]) + Escape(text[1..])
  }

  function Utf8(c: char): Octets {
    var n := c as int;
    if n < 0x80 then [n]
    else if n < 0x800 then [0xC0 + n / 64, 0x80 + n % 64]
    else if n < 0x10000 then [0xE0 + n / 4096, 0x80 + n / 64 % 64, 0x80 + n % 64]
    else [0xF0 + n / 262144 % 8, 0x80 + n / 4096 % 64, 0x80 + n / 64 % 64, 0x80 + n % 64]
  }

  /** None for a percent sign without two hexadecimal digits. */
  function Unescape(s: string): Option<Octets>
    decreases |s|
  {
    if s == "" then Some([])
    else if s[0] == '%' then
      if |s| < 3 || HexValue(s[1]) < 0 || HexValue(s[2]) < 0 then None
      else After([HexValue(s[1]) * 16 + HexValue(s[2])], Unescape(s[3..]))
    else After(if s[0] == '+' then [' ' as int] else Utf8(s[0]), Unescape(s[1..]))
  }

  function After(head: Octets, tail: Option<Octets>): Option<Octets> {
    if tail.Some? then Some(head + tail.value) else None
  }

  /** The characters an encoded query consists of. */
  predicate IsQueryChar(c: char) {
    || 'a' <= c <= 'z' || 'A' <= c <= 'Z' || '0' <= c <= '9'
    || c in {'-', '_', '.', '~', '+', '%'}
  }

  lemma {:induction false} EscapeChars(text: Octets)
    ensures forall i :: 0 <= i < |Escape(text)| ==> IsQueryChar(Escape(text)[i])
  {
    if text == [] {
    } else {
      EscapeChars(text[1..]);
      var head := EscapeOctet(text[0]);
      assert forall i :: 0 <= i < |head| ==> IsQueryChar(head[i]);
      assert forall i :: |head| <= i < |Escape(text)| ==> Escape(text)[i] == Escape(text[1..])[i - |head|];
    }
  }

  lemma {:induction false} UnescapeEscape(text: Octets)
    ensures Unescape(Escape(text)) == Some(text)
  {
    if text == [] {
    } else {
      UnescapeEscape(text[1..]);
      UnescapeOctet(text[0], Escape(text[1..]));
      assert [text[0]] + text[1..] == text;
    }
  }

  lemma UnescapeOctet(n: Octet, rest: string)
    ensures Unescape(EscapeOctet(n) + rest) == After([n], Unescape(rest))
  {
    var s := EscapeOctet(n) + rest;
    assert s[|EscapeOctet(n)|..] == rest;
    if !Unreserved(n) && n != ' ' as int {
      HexDigits(n);
      assert s[0] == '%' && s[1] == UpperHex(n / 16) && s[2] == UpperHex(n % 16);
    }
  }

  lemma HexDigits(n: Octet)
    ensures HexValue(UpperHex(n / 16)) * 16 + HexValue(UpperHex(n % 16)) == n
    ensures HexValue(UpperHex(n / 16)) >= 0 && HexValue(UpperHex(n % 16)) >= 0
  {
  }

  // ------------------------------------------------------------------ encoding and parsing a query

  type Pair = (Octets, Octets)

  function EncodePair(p: Pair): string {
    Escape(p.0) + "=" + Escape(p.1)
  }

  function EncodePairs(pairs: seq<Pair>): (r: seq<string>)
    ensures |r| == |pairs| && forall i :: 0 <= i < |r| ==> r[i] == EncodePair(pairs[i])
  {
    seq(|pairs|, i requires 0 <= i < |pairs| => EncodePair(pairs[i]))
  }

  function EntryPairs(e: Entry): (r: seq<Pair>)
    ensures |r| == |e.values| && forall i :: 0 <= i < |r| ==> r[i] == (e.key, e.values[i])
  {
    seq(|e.values|, i requires 0 <= i < |e.values| => (e.key, e.values[i]))
  }

  /** The pairs of a query in printing order. */
  function Pairs(q: Query): seq<Pair> {
    if q == [] then [] else Pairs(q[..|q| - 1]) + EntryPairs(q[|q| - 1])
  }

  function Encode(q: Query): string {
    Join(EncodePairs(Pairs(q)), "&")
  }

  /** One segment of a query text: skipped when empty or badly escaped. */
  function ParseSegment(segment: string): Option<Pair> {
    if segment == "" then None
    else
      var i := IndexAny(segment, {'='});
      var key := Unescape(segment[..i]);
      var value := Unescape(if i < |segment| then segment[i + 1..] else "");
      if key.Some? && value.Some? then Some((key.value, value.value)) else None
  }

  function AddSegments(segments: seq<string>): Query {
    if segments == [] then []
    else
      var before := AddSegments(segments[..|segments| - 1]);
      match ParseSegment(segments[|segments| - 1])
      case None => before
      case Some(p) => Add(before, p.0, p.1)
  }

  function ParseQuery(text: string): Query {
    AddSegments(Split(text, {'&', ';'}))
  }

  lemma {:induction false} ParsedQueryIsOrdered(segments: seq<string>)
    ensures Ordered(AddSegments(segments))
  {
    if segments == [] {
    } else {
      var n := |segments| - 1;
      ParsedQueryIsOrdered(segments[..n]);
      if ParseSegment(segments[n]).Some? {
        var p := ParseSegment(segments[n]).value;
        ChangeMeaning(AddSegments(segments[..n]), p.0, p.1, true);
      }
    }
  }

  lemma FreeOf(s: string, chars: set<char>)
    requires forall i :: 0 <= i < |s| ==> IsQueryChar(s[i])
    requires forall c :: c in chars ==> !IsQueryChar(c)
    ensures Free(s, chars)
  {
  }

  lemma SplitAtEquals(key: string, value: string)
    requires Free(key, {'='})
    ensures var s := key + "=" + value;
      IndexAny(s, {'='}) == |key| && s[..|key|] == key && s[|key| + 1..] == value
  {
    assert key + "=" + value == key + ("=" + value);
    IndexAnyUnique(key, "=" + value, {'='});
  }

  lemma ParseEncodedPair(p: Pair)
    ensures ParseSegment(EncodePair(p)) == Some(p)
  {
    EscapeChars(p.0);
    FreeOf(Escape(p.0), {'='});
    SplitAtEquals(Escape(p.0), Escape(p.1));
    UnescapeEscape(p.0);
    UnescapeEscape(p.1);
  }

  lemma EncodedPairIsOneSegment(p: Pair)
    ensures Free(EncodePair(p), {'&', ';'})
  {
    EscapeChars(p.0);
    EscapeChars(p.1);
  }

  function Build(pairs: seq<Pair>): Query {
    if pairs == [] then []
    else Add(Build(pairs[..|pairs| - 1]), pairs[|pairs| - 1].0, pairs[|pairs| - 1].1)
  }

  lemma {:induction false} AddEncodedPairs(pairs: seq<Pair>)
    ensures AddSegments(EncodePairs(pairs)) == Build(pairs)
  {
    if pairs == [] {
    } else {
      var n := |pairs| - 1;
      AddEncodedPairs(pairs[..n]);
      ParseEncodedPair(pairs[n]);
      assert EncodePairs(pairs)[..n] == EncodePairs(pairs[..n]);
    }
  }

  /** q with the value added at its end. */
  function Appended(q: Query, key: Octets, value: Octets): Query {
    if q != [] && q[|q| - 1].key == key then q[..|q| - 1] + [Entry(key, q[|q| - 1].values + [value])]
    else q + [Entry(key, [value])]
  }

  lemma AppendedCons(e: Entry, rest: Query, key: Octets, value: Octets)
    requires e.key != key
    ensures Appended([e] + rest, key, value) == [e] + Appended(rest, key, value)
  {
    if rest != [] {
      assert ([e] + rest)[..|rest|] == [e] + rest[..|rest| - 1];
    }
  }

  /** Adding to the last key, or under a key above all others, happens at the end. */
  lemma {:induction false} AddAtEnd(q: Query, key: Octets, value: Octets)
    requires Ordered(q)
    requires forall i :: 0 <= i < |q| ==> (q[i].key == key && i == |q| - 1) || Less(q[i].key, key)
    ensures Add(q, key, value) == Appended(q, key, value)
  {
    if q == [] {
    } else {
      LessTotal(q[0].key, key);
      if q[0].key != key {
        AddAtEnd(q[1..], key, value);
        AppendedCons(q[0], q[1..], key, value);
        assert [q[0]] + q[1..] == q;
      } else {
        assert |q| == 1;
      }
    }
  }

  lemma BuildSnoc(pairs: seq<Pair>, p: Pair)
    ensures Build(pairs + [p]) == Add(Build(pairs), p.0, p.1)
  {
    assert (pairs + [p])[..|pairs|] == pairs;
  }

  /** q followed by the first `count` values of e. */
  function Partial(q: Query, e: Entry, count: nat): Query
    requires count <= |e.values|
  {
    if count == 0 then q else q + [Entry(e.key, e.values[..count])]
  }

  lemma {:induction false} BuildEntry(before: seq<Pair>, q: Query, e: Entry, count: nat)
    requires Build(before) == q && Ordered(q) && count <= |e.values|
    requires forall i :: 0 <= i < |q| ==> Less(q[i].key, e.key)
    ensures Build(before + EntryPairs(e)[..count]) == Partial(q, e, count)
  {
    if count == 0 {
      assert before + EntryPairs(e)[..0] == before;
    } else {
      BuildEntry(before, q, e, count - 1);
      var soFar := before + EntryPairs(e)[..count - 1];
      assert before + EntryPairs(e)[..count] == soFar + [(e.key, e.values[count - 1])];
      BuildSnoc(soFar, (e.key, e.values[count - 1]));
      EntryGrows(q, e, count);
    }
  }

  lemma EntryGrows(q: Query, e: Entry, count: nat)
    requires Ordered(q) && 0 < count <= |e.values|
    requires forall i :: 0 <= i < |q| ==> Less(q[i].key, e.key)
    ensures Add(Partial(q, e, count - 1), e.key, e.values[count - 1]) == Partial(q, e, count)
  {
    assert e.values[..count] == e.values[..count - 1] + [e.values[count - 1]];
    if count == 1 {
      assert e.values[..1] == [e.values[0]];
      if q != [] {
        LessTotal(q[|q| - 1].key, e.key);
      }
      AddAtEnd(q, e.key, e.values[0]);
    } else {
      var soFar := Partial(q, e, count - 1);
      PartialIsOrdered(q, e, count - 1);
      AddAtEnd(soFar, e.key, e.values[count - 1]);
      assert soFar[..|soFar| - 1] == q;
    }
  }

  lemma PartialIsOrdered(q: Query, e: Entry, count: nat)
    requires Ordered(q) && 0 < count <= |e.values|
    requires forall i :: 0 <= i < |q| ==> Less(q[i].key, e.key)
    ensures Ordered(Partial(q, e, count))
  {
  }

  lemma {:induction false} BuildPairs(q: Query)
    requires Ordered(q)
    ensures Build(Pairs(q)) == q
    ensures q != [] ==> Pairs(q) != []
  {
    if q == [] {
    } else {
      var n := |q| - 1;
      BuildPairs(q[..n]);
      BuildEntry(Pairs(q[..n]), q[..n], q[n], |q[n].values|);
      assert EntryPairs(q[n])[..|q[n].values|] == EntryPairs(q[n]);
      assert q[n].values[..|q[n].values|] == q[n].values;
      assert q == q[..n] + [q[n]];
    }
  }

  /** Parsing an encoded query returns the query. */
  lemma ParseUndoesEncode(q: Query)
    requires Ordered(q)
    ensures ParseQuery(Encode(q)) == q
  {
    BuildPairs(q);
    var pairs := Pairs(q);
    if pairs == [] {
      assert Encode(q) == "";
      assert Split("", {'&', ';'}) == [""];
      assert [""][..0] == [];
      assert AddSegments([""]) == [];
    } else {
      forall i | 0 <= i < |pairs| ensures Free(EncodePairs(pairs)[i], {'&', ';'}) {
        EncodedPairIsOneSegment(pairs[i]);
      }
      SplitJoin(EncodePairs(pairs), '&', {'&', ';'});
      AddEncodedPairs(pairs);
    }
  }

  predicate IsQueryText(s: string) {
    forall i :: 0 <= i < |s| ==> IsQueryChar(s[i]) || s[i] == '=' || s[i] == '&'
  }

  lemma {:induction false} EncodeChars(pairs: seq<Pair>)
    ensures IsQueryText(Join(EncodePairs(pairs), "&"))
  {
    if pairs == [] {
    } else {
      EscapeChars(pairs[0].0);
      EscapeChars(pairs[0].1);
      assert EncodePairs(pairs)[1..] == EncodePairs(pairs[1..]);
      assert IsQueryText(EncodePair(pairs[0]));
      EncodeChars(pairs[1..]);
    }
  }

  // ------------------------------------------------------------------ URLs

  datatype Url = Url(base: string, query: string, fragment: string)

  predicate EscapesValid(s: string) {
    forall i :: 0 <= i < |s| && s[i] == '%' ==> i + 2 < |s| && HexValue(s[i + 1]) >= 0 && HexValue(s[i + 2]) >= 0
  }

  /** No control characters. */
  predicate IsPlain(s: string) {
    forall k :: 0 <= k < |s| ==> s[k] as int >= 0x20 && s[k] as int != 0x7F
  }

  /** url.Parse, as far as a URL is its base, query and fragment. */
  function ParseUrl(s: string): Option<Url> {
    var (head, fragment) := Cut(s, '#');
    var (base, query) := Cut(head, '?');
    if IsPlain(head) && EscapesValid(base) && EscapesValid(fragment) then Some(Url(base, query, fragment)) else None
  }

  function PrintUrl(u: Url): string {
    WithTail(WithTail(u.base, '?', u.query), '#', u.fragment)
  }

  predicate GoodUrl(u: Url) {
    && Free(u.base, {'#', '?'}) && Free(u.query, {'#'})
    && IsPlain(u.base) && IsPlain(u.query) && EscapesValid(u.base) && EscapesValid(u.fragment)
  }

  lemma CutParts(s: string, separator: char)
    ensures Free(Cut(s, separator).0, {separator})
    ensures IsPlain(s) ==> IsPlain(Cut(s, separator).0) && IsPlain(Cut(s, separator).1)
    ensures forall chars :: Free(s, chars) ==> Free(Cut(s, separator).0, chars) && Free(Cut(s, separator).1, chars)
  {
  }

  lemma ParsedUrlIsGood(s: string)
    requires ParseUrl(s).Some?
    ensures GoodUrl(ParseUrl(s).value)
  {
    CutParts(s, '#');
    var head := Cut(s, '#').0;
    CutParts(head, '?');
    assert Free(head, {'#'});
  }

  lemma HeadIsPlain(base: string, query: string)
    requires Free(base, {'#', '?'}) && Free(query, {'#'}) && IsPlain(base) && IsPlain(query)
    ensures Free(WithTail(base, '?', query), {'#'}) && IsPlain(WithTail(base, '?', query)) && Free(base, {'?'})
  {
  }

  lemma ParseUndoesPrint(u: Url)
    requires GoodUrl(u)
    ensures ParseUrl(PrintUrl(u)) == Some(u)
  {
    HeadIsPlain(u.base, u.query);
    CutWithTail(WithTail(u.base, '?', u.query), '#', u.fragment);
    CutWithTail(u.base, '?', u.query);
  }

  const BG: Octets := ['b' as int, 'g' as int]
  const TRUE: Octets := ['t' as int, 'r' as int, 'u' as int, 'e' as int]

  function BackgroundQuery(query: string): Query {
    Set(ParseQuery(query), BG, TRUE)
  }

  function Background(u: Url): Url {
    u.(query := Encode(BackgroundQuery(u.query)))
  }

  /** The URL with the key bg set to "true"; None when the text is no URL. */
  function RunInBackground(s: string): Option<string> {
    match ParseUrl(s)
    case None => None
    case Some(u) => Some(PrintUrl(Background(u)))
  }

  lemma BackgroundQueryIsOrdered(query: string)
    ensures Ordered(ParseQuery(query)) && Ordered(BackgroundQuery(query))
  {
    ParsedQueryIsOrdered(Split(query, {'&', ';'}));
    ChangeMeaning(ParseQuery(query), BG, TRUE, false);
  }

  lemma QueryTextIsPlain(s: string)
    requires IsQueryText(s)
    ensures Free(s, {'#'}) && IsPlain(s)
  {
  }

  lemma BackgroundIsGood(u: Url)
    requires GoodUrl(u)
    ensures GoodUrl(Background(u)) && ParseQuery(Background(u).query) == BackgroundQuery(u.query)
  {
    var q := BackgroundQuery(u.query);
    EncodeChars(Pairs(q));
    QueryTextIsPlain(Encode(q));
    BackgroundQueryIsOrdered(u.query);
    ParseUndoesEncode(q);
  }

  /** The rewritten URL has the same base and fragment, bg is exactly "true" and every other key keeps its values. */
  lemma BackgroundMeaning(s: string)
    requires ParseUrl(s).Some?
    ensures RunInBackground(s).Some?
    ensures var before, after := ParseUrl(s).value, ParseUrl(RunInBackground(s).value);
      && after.Some?
      && after.value.base == before.base && after.value.fragment == before.fragment
      && ValuesOf(ParseQuery(after.value.query), BG) == [TRUE]
      && forall key :: key != BG ==>
           ValuesOf(ParseQuery(after.value.query), key) == ValuesOf(ParseQuery(before.query), key)
  {
    var u := ParseUrl(s).value;
    ParsedUrlIsGood(s);
    BackgroundIsGood(u);
    ParseUndoesPrint(Background(u));
    BackgroundQueryIsOrdered(u.query);
    ChangeMeaning(ParseQuery(u.query), BG, TRUE, false);
  }

  lemma {:induction false} SetTwice(q: Query, key: Octets, value: Octets)
    ensures Set(Set(q, key, value), key, value) == Set(q, key, value)
  {
    LessTotal(key, key);
    if q == [] || Less(key, q[0].key) || q[0].key == key {
    } else {
      SetTwice(q[1..], key, value);
      assert Set(q, key, value)[1..] == Set(q[1..], key, value);
    }
  }

  /** Rewriting a rewritten URL changes nothing. */
  lemma BackgroundTwice(s: string)
    requires ParseUrl(s).Some?
    ensures RunInBackground(RunInBackground(s).value) == RunInBackground(s)
  {
    var u := ParseUrl(s).value;
    ParsedUrlIsGood(s);
    BackgroundIsGood(u);
    ParseUndoesPrint(Background(u));
    SetTwice(ParseQuery(u.query), BG, TRUE);
    assert Background(Background(u)) == Background(u);
  }
}
