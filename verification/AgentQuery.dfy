/** The texts of URLs and queries, said without the encoder and the decoder: the order of keys, which characters are
    escaped, which escapes are understood, and what is skipped or rejected. */
module AgentQuery {
  import opened Common
  import opened Text
  import opened AgentUrl
  import AgentLiterals

  // ------------------------------------------------------------------ the order of keys

  /** The keys agree up to position k, and there the first one ends or has the smaller octet. */
  predicate LessAt(a: Octets, b: Octets, k: nat) {
    && k <= |a| && k < |b| && a[..k] == b[..k]
    && (k == |a| || a[k] < b[k])
  }

  /** Keys are in lexicographic order of their octets. */
  lemma {:induction false} LessIsLexicographic(a: Octets, b: Octets)
    ensures Less(a, b) <==> exists k: nat :: LessAt(a, b, k)
  {
    if b == [] {
    } else if a == [] {
      assert LessAt(a, b, 0);
    } else if a[0] != b[0] {
      if a[0] < b[0] {
        assert LessAt(a, b, 0);
      }
      forall k: nat | LessAt(a, b, k) ensures a[0] < b[0] {
        if k > 0 {
          HeadsAgree(a, b, k);
          assert false;
        }
      }
    } else {
      LessIsLexicographic(a[1..], b[1..]);
      if k: nat :| LessAt(a[1..], b[1..], k) {
        OneMoreEqual(a, b, k);
      }
      forall k: nat | LessAt(a, b, k) ensures LessAt(a[1..], b[1..], k - 1) {
        OneLessEqual(a, b, k);
      }
    }
  }

  lemma HeadsAgree(a: Octets, b: Octets, k: nat)
    requires 0 < k <= |a| && k <= |b| && a[..k] == b[..k]
    ensures a[0] == b[0]
  {
    assert a[..k][0] == a[0] && b[..k][0] == b[0];
  }

  lemma OneMoreEqual(a: Octets, b: Octets, k: nat)
    requires a != [] && b != [] && a[0] == b[0] && LessAt(a[1..], b[1..], k)
    ensures LessAt(a, b, k + 1)
  {
    assert a[..k + 1] == [a[0]] + a[1..][..k] && b[..k + 1] == [b[0]] + b[1..][..k];
  }

  lemma OneLessEqual(a: Octets, b: Octets, k: nat)
    requires a != [] && b != [] && a[0] == b[0] && LessAt(a, b, k)
    ensures k > 0 && LessAt(a[1..], b[1..], k - 1)
  {
    assert a[1..][..k - 1] == a[..k][1..] && b[1..][..k - 1] == b[..k][1..];
  }

  // ------------------------------------------------------------------ escapes

  const HEX: string := "0123456789ABCDEF"

  predicate IsHexDigit(c: char) {
    c in "0123456789abcdef" || c in "0123456789ABCDEF"
  }

  /** Every percent sign is followed by two hexadecimal digits. */
  predicate GoodEscapes(s: string) {
    forall i :: 0 <= i < |s| && s[i] == '%' ==> i + 2 < |s| && IsHexDigit(s[i + 1]) && IsHexDigit(s[i + 2])
  }

  lemma GoodEscapesAreValid(s: string)
    ensures GoodEscapes(s) <==> EscapesValid(s)
  {
    forall c ensures HexValue(c) >= 0 <==> IsHexDigit(c) {
      AgentLiterals.HexDigitsExactly(c);
    }
  }

  predicate StaysAsItIs(c: char) {
    c in "abcdefghijklm" || c in "nopqrstuvwxyz" || c in "ABCDEFGHIJKLM" || c in "NOPQRSTUVWXYZ"
    || c in "0123456789" || c in "-_.~"
  }

  /** Letters, digits and four more characters stay, a space becomes a plus, any other octet a percent sign and two
      upper-case digits. */
  lemma EscapedOctet(n: Octet)
    ensures EscapeOctet(n) ==
      if StaysAsItIs(n as char) then [n as char] else if n as char == ' ' then "+"
      else ['%', HEX[n / 16], HEX[n % 16]]
  {
    UnreservedExactly(n);
    UpperHexExactly(n / 16);
    UpperHexExactly(n % 16);
  }

  lemma UnreservedExactly(n: Octet)
    ensures Unreserved(n) <==> StaysAsItIs(n as char)
  {
    LowerExactly(n as char);
    UpperExactly(n as char);
    OthersExactly(n as char);
  }

  lemma LowerExactly(c: char)
    ensures 'a' <= c <= 'z' <==> c in "abcdefghijklm" || c in "nopqrstuvwxyz"
  {
    assert 'a' <= c <= 'm' ==> c == "abcdefghijklm"[c as int - 'a' as int];
    assert 'n' <= c <= 'z' ==> c == "nopqrstuvwxyz"[c as int - 'n' as int];
  }

  lemma UpperExactly(c: char)
    ensures 'A' <= c <= 'Z' <==> c in "ABCDEFGHIJKLM" || c in "NOPQRSTUVWXYZ"
  {
    assert 'A' <= c <= 'M' ==> c == "ABCDEFGHIJKLM"[c as int - 'A' as int];
    assert 'N' <= c <= 'Z' ==> c == "NOPQRSTUVWXYZ"[c as int - 'N' as int];
  }

  lemma OthersExactly(c: char)
    ensures '0' <= c <= '9' <==> c in "0123456789"
    ensures c in {'-', '_', '.', '~'} <==> c in "-_.~"
  {
    assert '0' <= c <= '9' ==> c == "0123456789"[c as int - '0' as int];
    assert "-_.~"[0] == '-' && "-_.~"[1] == '_' && "-_.~"[2] == '.' && "-_.~"[3] == '~';
  }

  lemma UpperHexExactly(n: nat)
    requires n < 16
    ensures UpperHex(n) == HEX[n]
  {
  }

  /** A text is decoded exactly when its percent signs are followed by digits. */
  lemma {:induction false} DecodedIff(s: string)
    ensures Unescape(s).Some? <==> EscapesValid(s)
    decreases |s|
  {
    if s == "" {
    } else if s[0] == '%' {
      if |s| >= 3 && HexValue(s[1]) >= 0 && HexValue(s[2]) >= 0 {
        DecodedIff(s[3..]);
        assert forall i :: 3 <= i < |s| ==> s[i] == s[3..][i - 3];
        ValidAfter(s, 3);
      }
    } else {
      DecodedIff(s[1..]);
      ValidAfter(s, 1);
    }
  }

  /** No percent sign among the first n characters, or only one that is followed by digits. */
  lemma ValidAfter(s: string, n: nat)
    requires n <= |s|
    requires (n == 1 && s[0] != '%') || (n == 3 && s[0] == '%' && HexValue(s[1]) >= 0 && HexValue(s[2]) >= 0)
    ensures EscapesValid(s) <==> EscapesValid(s[n..])
  {
    assert forall i :: 0 <= i < |s[n..]| ==> s[n..][i] == s[i + n];
    if EscapesValid(s[n..]) {
      forall i | 0 <= i < |s| && s[i] == '%'
        ensures i + 2 < |s| && HexValue(s[i + 1]) >= 0 && HexValue(s[i + 2]) >= 0
      {
        if i >= n {
          assert s[n..][i - n] == '%';
        }
      }
    }
    if EscapesValid(s) {
      forall i | 0 <= i < |s[n..]| && s[n..][i] == '%'
        ensures i + 2 < |s[n..]| && HexValue(s[n..][i + 1]) >= 0 && HexValue(s[n..][i + 2]) >= 0
      {
        assert s[i + n] == '%';
      }
    }
  }

  /** Escapes are understood in both cases, a plus is a space, and other characters are their UTF-8 octets. */
  lemma DecodedCharacter(c: char, high: nat, low: nat, rest: string)
    requires high < 16 && low < 16
    ensures Unescape(['%', HEX[high], HEX[low]] + rest) == After([16 * high + low], Unescape(rest))
    ensures Unescape(['%', AgentLiterals.LowerHex(high), AgentLiterals.LowerHex(low)] + rest)
         == After([16 * high + low], Unescape(rest))
    ensures Unescape("+" + rest) == After([' ' as int], Unescape(rest))
    ensures c != '%' && c != '+' ==> Unescape([c] + rest) == After(Utf8(c), Unescape(rest))
  {
    DigitsUnderstood(high);
    DigitsUnderstood(low);
    DecodedEscape(HEX[high], HEX[low], high, low, rest);
    DecodedEscape(AgentLiterals.LowerHex(high), AgentLiterals.LowerHex(low), high, low, rest);
    DecodedOther('+', rest);
    DecodedOther(c, rest);
  }

  lemma DecodedEscape(c: char, d: char, high: nat, low: nat, rest: string)
    requires high < 16 && low < 16 && HexValue(c) == high && HexValue(d) == low
    ensures Unescape(['%', c, d] + rest) == After([16 * high + low], Unescape(rest))
  {
    assert (['%', c, d] + rest)[3..] == rest;
  }

  lemma DecodedOther(c: char, rest: string)
    ensures c == '+' ==> Unescape([c] + rest) == After([' ' as int], Unescape(rest))
    ensures c != '%' && c != '+' ==> Unescape([c] + rest) == After(Utf8(c), Unescape(rest))
  {
    assert ([c] + rest)[1..] == rest;
  }

  lemma DigitsUnderstood(n: nat)
    requires n < 16
    ensures HexValue(HEX[n]) == n && HexValue(AgentLiterals.LowerHex(n)) == n
  {
    UpperHexExactly(n);
  }

  predicate IsContinuation(n: int) {
    0x80 <= n < 0xC0
  }

  /** The UTF-8 octets of a character: its code in the low bits of a lead and up to three continuation octets
      (section 3 of RFC 3629). */
  lemma Utf8Exactly(c: char)
    ensures var u, n := Utf8(c), c as int;
      && (n < 0x80 ==> u == [n])
      && (0x80 <= n < 0x800 ==>
            && |u| == 2 && 0xC0 <= u[0] < 0xE0 && IsContinuation(u[1])
            && n == (u[0] as int - 0xC0) * 64 + (u[1] as int - 0x80))
      && (0x800 <= n < 0x10000 ==>
            && |u| == 3 && 0xE0 <= u[0] < 0xF0 && IsContinuation(u[1]) && IsContinuation(u[2])
            && n == (u[0] as int - 0xE0) * 4096 + (u[1] as int - 0x80) * 64 + (u[2] as int - 0x80))
      && (0x10000 <= n ==>
            && |u| == 4 && 0xF0 <= u[0] < 0xF8
            && IsContinuation(u[1]) && IsContinuation(u[2]) && IsContinuation(u[3])
            && n == (u[0] as int - 0xF0) * 262144 + (u[1] as int - 0x80) * 4096 + (u[2] as int - 0x80) * 64
                    + (u[3] as int - 0x80))
  {
    var n := c as int;
    SixBits(n);
    SixBits(n / 64);
    SixBits(n / 4096);
    Shifts(n);
    assert n < 0x110000;
  }

  lemma SixBits(n: nat)
    ensures 0 <= n % 64 < 64 && n == n / 64 * 64 + n % 64
  {
  }

  lemma Shifts(n: nat)
    ensures n / 64 / 64 == n / 4096 && n / 4096 / 64 == n / 262144
  {
  }

  // ------------------------------------------------------------------ segments

  lemma {:induction false} SplitInTwo(a: string, separator: char, b: string, separators: set<char>)
    requires separator in separators
    ensures Split(a + ([separator] + b), separators) == Split(a, separators) + Split(b, separators)
  {
    var whole := a + ([separator] + b);
    if a == "" {
      assert whole == [separator] + b && whole[1..] == b;
    } else {
      assert whole[0] == a[0] && whole[1..] == a[1..] + ([separator] + b);
      SplitInTwo(a[1..], separator, b, separators);
    }
  }

  /** A semicolon separates as an ampersand does. */
  lemma SeparatorsAgree(a: string, b: string)
    ensures ParseQuery(a + (";" + b)) == ParseQuery(a + ("&" + b))
  {
    SplitInTwo(a, ';', b, {'&', ';'});
    SplitInTwo(a, '&', b, {'&', ';'});
  }

  /** A segment counts exactly when it is not empty and both sides of its first equals sign are well escaped; a
      segment without one is a key with an empty value. */
  lemma SegmentCounts(key: string, value: string)
    requires Free(key, {'='})
    ensures ParseSegment(key + ("=" + value)).Some? <==> GoodEscapes(key) && GoodEscapes(value)
    ensures ParseSegment(key).Some? <==> key != "" && GoodEscapes(key)
    ensures ParseSegment(key).Some? ==> ParseSegment(key) == ParseSegment(key + ("=" + ""))
    ensures ParseSegment(key + ("=" + value)).Some? ==>
      Some(ParseSegment(key + ("=" + value)).value.0) == Unescape(key)
      && Some(ParseSegment(key + ("=" + value)).value.1) == Unescape(value)
  {
    KeyAndValue(key, value);
    KeyAndValue(key, "");
    IndexAnyUnique(key, "", {'='});
    assert key + "" == key && key[..|key|] == key;
    DecodedIff(key);
    DecodedIff(value);
    GoodEscapesAreValid(key);
    GoodEscapesAreValid(value);
  }

  lemma KeyAndValue(key: string, value: string)
    requires Free(key, {'='})
    ensures var s := key + ("=" + value);
      && IndexAny(s, {'='}) == |key| && |s| == |key| + 1 + |value|
      && s[..|key|] == key && s[|key| + 1..] == value
  {
    IndexAnyUnique(key, "=" + value, {'='});
  }

  // ------------------------------------------------------------------ URLs that are rejected

  predicate NoControls(s: string) {
    forall c <- s :: ' ' <= c && c != 127 as char
  }

  /** A text is a URL unless it has a control character before its fragment, or a bad escape outside its query. */
  lemma RejectedIff(base: string, query: string, fragment: string)
    requires Free(base, {'#', '?'}) && Free(query, {'#'})
    ensures ParseUrl(PrintUrl(Url(base, query, fragment))) ==
      if NoControls(base) && NoControls(query) && GoodEscapes(base) && GoodEscapes(fragment)
      then Some(Url(base, query, fragment)) else None
  {
    HeadPlain(base, query);
    CutWithTail(WithTail(base, '?', query), '#', fragment);
    CutWithTail(base, '?', query);
    GoodEscapesAreValid(base);
    GoodEscapesAreValid(fragment);
  }

  lemma HeadPlain(base: string, query: string)
    requires Free(base, {'#', '?'}) && Free(query, {'#'})
    ensures Free(WithTail(base, '?', query), {'#'}) && Free(base, {'?'})
    ensures IsPlain(WithTail(base, '?', query)) <==> NoControls(base) && NoControls(query)
  {
    var head := WithTail(base, '?', query);
    PlainIsFree(head);
    PlainIsFree(base);
    PlainIsFree(query);
    if query == "" {
      assert head == base;
    } else {
      PlainParts(base, "?" + query);
      PlainParts("?", query);
    }
  }

  lemma PlainParts(a: string, b: string)
    ensures IsPlain(a + b) <==> IsPlain(a) && IsPlain(b)
  {
    assert forall i :: 0 <= i < |a| ==> (a + b)[i] == a[i];
    assert forall i :: 0 <= i < |b| ==> (a + b)[|a| + i] == b[i];
  }

  lemma PlainIsFree(s: string)
    ensures IsPlain(s) <==> NoControls(s)
  {
    if IsPlain(s) {
      forall c | c in s ensures ' ' <= c && c != 127 as char {
        var k :| 0 <= k < |s| && s[k] == c;
      }
    } else {
      var k :| 0 <= k < |s| && !(s[k] as int >= 0x20 && s[k] as int != 0x7F);
      assert s[k] in s;
    }
  }
}
