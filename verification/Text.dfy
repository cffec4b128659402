/** Splitting, joining and trimming of strings. */
module Text {

  predicate Free(s: string, chars: set<char>) {
    forall i :: 0 <= i < |s| ==> s[i] !in chars
  }

  /** The pieces of s between the separators; there is always at least one. */
  function Split(s: string, separators: set<char>): (parts: seq<string>)
    ensures |parts| >= 1
    ensures forall i :: 0 <= i < |parts| ==> Free(parts[i], separators)
  {
    if s == "" then [""]
    else
      var rest := Split(s[1..], separators);
      if s[0] in separators then [""] + rest
      else [[s[0]] + rest[0]] + rest[1..]
  }

  function Join(parts: seq<string>, separator: string): string {
    if parts == [] then ""
    else if |parts| == 1 then parts[0]
    else parts[0] + separator + Join(parts[1..], separator)
  }

  lemma {:induction false} JoinSplit(s: string, separator: char)
    ensures Join(Split(s, {separator}), [separator]) == s
  {
    if s == "" {
    } else {
      JoinSplit(s[1..], separator);
      var rest := Split(s[1..], {separator});
      if s[0] != separator && |rest| > 1 {
        var parts := [[s[0]] + rest[0]] + rest[1..];
        assert parts[1..] == rest[1..];
        assert Join(parts, [separator]) == [s[0]] + (rest[0] + [separator] + Join(rest[1..], [separator]));
      }
    }
  }

  lemma {:induction false} SplitFree(s: string, separators: set<char>)
    requires Free(s, separators)
    ensures Split(s, separators) == [s]
  {
    if s == "" {
    } else {
      assert s[0] !in separators;
      assert Free(s[1..], separators) by {
        forall i | 0 <= i < |s[1..]| ensures s[1..][i] !in separators { assert s[1..][i] == s[i + 1]; }
      }
      SplitFree(s[1..], separators);
      assert [s[0]] + s[1..] == s;
    }
  }

  lemma {:induction false} SplitAtSeparator(s: string, separator: char, rest: string, separators: set<char>)
    requires Free(s, separators) && separator in separators
    ensures Split(s + [separator] + rest, separators) == [s] + Split(rest, separators)
  {
    var whole := s + [separator] + rest;
    if s == "" {
      assert whole[1..] == rest;
    } else {
      assert s[0] !in separators;
      assert whole[1..] == s[1..] + [separator] + rest;
      assert Free(s[1..], separators) by {
        forall i | 0 <= i < |s[1..]| ensures s[1..][i] !in separators { assert s[1..][i] == s[i + 1]; }
      }
      SplitAtSeparator(s[1..], separator, rest, separators);
      assert [s[0]] + s[1..] == s;
    }
  }

  lemma {:induction false} SplitJoin(parts: seq<string>, separator: char, separators: set<char>)
    requires |parts| >= 1 && separator in separators
    requires forall i :: 0 <= i < |parts| ==> Free(parts[i], separators)
    ensures Split(Join(parts, [separator]), separators) == parts
  {
    if |parts| == 1 {
      SplitFree(parts[0], separators);
    } else {
      SplitJoin(parts[1..], separator, separators);
      SplitAtSeparator(parts[0], separator, Join(parts[1..], [separator]), separators);
    }
  }

  /** The white space that strings.TrimSpace removes. */
  predicate IsSpace(c: char) {
    || c in {'\t', '\n', '\r', ' '}
    || (c as int) in {0x0B, 0x0C, 0x85, 0xA0, 0x1680, 0x2028, 0x2029, 0x202F, 0x205F, 0x3000}
    || 0x2000 <= c as int <= 0x200A
  }

  function TrimLeft(s: string): string {
    if s != "" && IsSpace(s[0]) then TrimLeft(s[1..]) else s
  }

  function TrimRight(s: string): string {
    if s != "" && IsSpace(s[|s| - 1]) then TrimRight(s[..|s| - 1]) else s
  }

  function TrimSpace(s: string): string {
    TrimRight(TrimLeft(s))
  }

  /** The value of a hexadecimal digit, -1 for any other character. */
  function HexValue(c: char): int {
    if '0' <= c <= '9' then c as int - '0' as int
    else if 'a' <= c <= 'f' then c as int - 'a' as int + 10
    else if 'A' <= c <= 'F' then c as int - 'A' as int + 10
    else -1
  }

  predicate HasPrefix(s: string, prefix: string) {
    |prefix| <= |s| && s[..|prefix|] == prefix
  }

  /** The position of the first of `chars` in s, or |s|. */
  function IndexAny(s: string, chars: set<char>): (i: nat)
    ensures i <= |s| && (i < |s| ==> s[i] in chars) && Free(s[..i], chars)
  {
    if s == "" || s[0] in chars then 0 else 1 + IndexAny(s[1..], chars)
  }

  /** What comes before the first separator, and what comes after it. */
  function Cut(s: string, separator: char): (string, string) {
    var i := IndexAny(s, {separator});
    (s[..i], if i < |s| then s[i + 1..] else "")
  }

  function WithTail(head: string, separator: char, tail: string): string {
    head + (if tail != "" then [separator] + tail else "")
  }

  lemma CutWithTail(head: string, separator: char, tail: string)
    requires Free(head, {separator})
    ensures Cut(WithTail(head, separator, tail), separator) == (head, tail)
  {
    var s := WithTail(head, separator, tail);
    IndexAnyUnique(head, if tail != "" then [separator] + tail else "", {separator});
    assert s[..|head|] == head;
    if tail != "" {
      assert s[|head| + 1..] == tail;
    }
  }

  lemma {:induction false} IndexAnyUnique(head: string, tail: string, chars: set<char>)
    requires Free(head, chars) && (tail == "" || tail[0] in chars)
    ensures IndexAny(head + tail, chars) == |head|
  {
    if head == "" {
      assert head + tail == tail;
    } else {
      assert head[0] !in chars;
      assert (head + tail)[1..] == head[1..] + tail;
      assert Free(head[1..], chars) by {
        forall i | 0 <= i < |head[1..]| ensures head[1..][i] !in chars { assert head[1..][i] == head[i + 1]; }
      }
      IndexAnyUnique(head[1..], tail, chars);
    }
  }

  /** The ASCII characters of words. */
  predicate IsWordChar(c: char) {
    c in {'a', 'b', 'c', 'd', 'e', 'f', 'g', 'h', 'i', 'j', 'k', 'l', 'm', 'n', 'o', 'p', 'q', 'r', 's', 't', 'u', 'v',
          'w', 'x', 'y', 'z', 'A', 'B', 'C', 'D', 'E', 'F', 'G', 'H', 'I', 'J', 'K', 'L', 'M', 'N', 'O', 'P', 'Q', 'R',
          'S', 'T', 'U', 'V', 'W', 'X', 'Y', 'Z', '0', '1', '2', '3', '4', '5', '6', '7', '8', '9', '_', '.'}
  }
}
