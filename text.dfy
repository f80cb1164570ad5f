/**
 * String helpers standing for the Python built-ins the source relies on:
 * str.isspace and str.strip, `in` on strings, str.split(sep),
 * str.split(maxsplit=1), str.isdigit, int(str), str(int) and str.lower.
 */
module Text {
  import opened Wrappers

  /** The characters Python's str.isspace() accepts; str.strip() and str.split() use the same set. */
  predicate IsSpace(c: char) {
    || ('\t' <= c <= '\r')
    || ('\U{1C}' <= c <= ' ')
    || c == '\U{85}' || c == '\U{A0}' || c == '\U{1680}'
    || ('\U{2000}' <= c <= '\U{200A}')
    || c == '\U{2028}' || c == '\U{2029}' || c == '\U{202F}' || c == '\U{205F}' || c == '\U{3000}'
  }

  predicate NoSpace(s: string) {
    forall i :: 0 <= i < |s| ==> !IsSpace(s[i])
  }

  /** str.lstrip(): drop the leading whitespace. */
  function LStrip(s: string): string {
    if |s| > 0 && IsSpace(s[0]) then LStrip(s[1..]) else s
  }

  /** lstrip keeps a suffix and drops only whitespace, up to the first other character. */
  lemma {:induction false} LStripShape(s: string)
    ensures var r := LStrip(s); |r| <= |s| && r == s[|s| - |r|..]
    ensures var r := LStrip(s); forall i :: 0 <= i < |s| - |r| ==> IsSpace(s[i])
    ensures var r := LStrip(s); r == [] || !IsSpace(r[0])
    decreases |s|
  {
    if |s| > 0 && IsSpace(s[0]) {
      LStripShape(s[1..]);
    }
  }

  /** str.rstrip(): drop the trailing whitespace. */
  function RStrip(s: string): string {
    if |s| > 0 && IsSpace(s[|s| - 1]) then RStrip(s[..|s| - 1]) else s
  }

  /** rstrip keeps a prefix and drops only whitespace, back to the last other character. */
  lemma {:induction false} RStripShape(s: string)
    ensures var r := RStrip(s); |r| <= |s| && r == s[..|r|]
    ensures var r := RStrip(s); forall i :: |r| <= i < |s| ==> IsSpace(s[i])
    ensures var r := RStrip(s); r == [] || !IsSpace(r[|r| - 1])
    decreases |s|
  {
    if |s| > 0 && IsSpace(s[|s| - 1]) {
      RStripShape(s[..|s| - 1]);
    }
  }

  /** str.strip() */
  function Strip(s: string): string {
    RStrip(LStrip(s))
  }

  /** A string that neither starts nor ends with whitespace is its own strip. */
  lemma StripUnpadded(s: string)
    requires s == [] || (!IsSpace(s[0]) && !IsSpace(s[|s| - 1]))
    ensures Strip(s) == s
  {
  }

  predicate IsPrefix(p: string, s: string) {
    |p| <= |s| && s[..|p|] == p
  }

  /** Python's `needle in hay` on strings. */
  predicate Contains(hay: string, needle: string)
    decreases |hay|
  {
    IsPrefix(needle, hay) || (|hay| > 0 && Contains(hay[1..], needle))
  }

  /** A needle whose first character does not occur in hay is not in hay. */
  lemma {:induction false} NotContainsWithoutFirst(hay: string, needle: string)
    requires needle != []
    requires forall i :: 0 <= i < |hay| ==> hay[i] != needle[0]
    ensures !Contains(hay, needle)
    decreases |hay|
  {
    if |hay| > 0 {
      NotContainsWithoutFirst(hay[1..], needle);
    }
  }

  /** A needle at the front of hay is in hay. */
  lemma ContainsPrefix(hay: string, needle: string)
    requires IsPrefix(needle, hay)
    ensures Contains(hay, needle)
  {
  }

  /** sep occurs in s at position j. */
  predicate OccursAt(s: string, sep: string, j: int) {
    0 <= j && j + |sep| <= |s| && s[j..j + |sep|] == sep
  }

  /** The first position at or after i where sep occurs in s. */
  function FindFrom(s: string, sep: string, i: nat): (r: Option<nat>)
    requires i <= |s|
    ensures r.Some? ==> i <= r.value && OccursAt(s, sep, r.value)
    ensures r.Some? ==> forall j :: i <= j < r.value ==> !OccursAt(s, sep, j)
    ensures r.None? ==> forall j :: i <= j ==> !OccursAt(s, sep, j)
    decreases |s| - i
  {
    if i + |sep| > |s| then None
    else if s[i..i + |sep|] == sep then Some(i)
    else FindFrom(s, sep, i + 1)
  }

  /** Python's s.split(sep) for a non-empty separator. */
  function Split(s: string, sep: string): (parts: seq<string>)
    requires sep != []
    ensures |parts| >= 1
    decreases |s|
  {
    match FindFrom(s, sep, 0)
    case None => [s]
    case Some(k) => [s[..k]] + Split(s[k + |sep|..], sep)
  }

  /** sep.join(parts) */
  function Join(parts: seq<string>, sep: string): string
    requires |parts| >= 1
  {
    if |parts| == 1 then parts[0] else parts[0] + sep + Join(parts[1..], sep)
  }

  /** A join starts with the first part, when that is not empty. */
  lemma JoinFirst(parts: seq<string>, sep: string)
    requires |parts| >= 1 && parts[0] != []
    ensures var j := Join(parts, sep); j != [] && j[0] == parts[0][0]
  {
  }

  /** A join ends with the last part, when that is not empty. */
  lemma {:induction false} JoinLast(parts: seq<string>, sep: string)
    requires |parts| >= 1 && parts[|parts| - 1] != []
    ensures var j := Join(parts, sep); var last := parts[|parts| - 1]; j != [] && j[|j| - 1] == last[|last| - 1]
    decreases |parts|
  {
    if |parts| > 1 {
      var rest := parts[1..];
      assert rest[|rest| - 1] == parts[|parts| - 1];
      JoinLast(rest, sep);
    }
  }

  /** Joining one more part appends the separator and that part. */
  lemma {:induction false} JoinSnoc(parts: seq<string>, x: string, sep: string)
    requires |parts| >= 1
    ensures Join(parts + [x], sep) == Join(parts, sep) + sep + x
    decreases |parts|
  {
    if |parts| == 1 {
      assert (parts + [x])[1..] == [x];
    } else {
      assert (parts + [x])[1..] == parts[1..] + [x];
      JoinSnoc(parts[1..], x, sep);
    }
  }

  lemma {:induction false} FindFromAbsent(s: string, sep: string, i: nat)
    requires sep != [] && i <= |s|
    requires forall j :: i <= j < |s| ==> s[j] != sep[0]
    ensures FindFrom(s, sep, i) == None
    decreases |s| - i
  {
    if i + |sep| <= |s| {
      assert s[i..i + |sep|][0] == s[i];
      FindFromAbsent(s, sep, i + 1);
    }
  }

  lemma {:induction false} FindFromAt(s: string, sep: string, i: nat, k: nat)
    requires sep != [] && i <= k && k + |sep| <= |s| && s[k..k + |sep|] == sep
    requires forall j :: i <= j < k ==> s[j] != sep[0]
    ensures FindFrom(s, sep, i) == Some(k)
    decreases k - i
  {
    if i < k {
      assert s[i..i + |sep|][0] == s[i];
      FindFromAt(s, sep, i + 1, k);
    }
  }

  /** Splitting a joined list gives the list back when no part holds the separator's first character. */
  lemma {:induction false} SplitJoin(parts: seq<string>, sep: string)
    requires sep != [] && |parts| >= 1
    requires forall k, i :: 0 <= k < |parts| && 0 <= i < |parts[k]| ==> parts[k][i] != sep[0]
    ensures Split(Join(parts, sep), sep) == parts
    decreases |parts|
  {
    var s := Join(parts, sep);
    if |parts| == 1 {
      FindFromAbsent(s, sep, 0);
    } else {
      var p0, rest := parts[0], Join(parts[1..], sep);
      assert s == p0 + sep + rest;
      assert s[|p0|..|p0| + |sep|] == sep;
      FindFromAt(s, sep, 0, |p0|);
      assert s[..|p0|] == p0;
      assert s[|p0| + |sep|..] == rest;
      SplitJoin(parts[1..], sep);
    }
  }

  /** The first whitespace position of s at or after i, or |s| when there is none. */
  function SpaceFrom(s: string, i: nat): (k: nat)
    requires i <= |s|
    ensures i <= k <= |s| && (k == |s| || IsSpace(s[k]))
    ensures forall j :: i <= j < k ==> !IsSpace(s[j])
    decreases |s| - i
  {
    if i == |s| || IsSpace(s[i]) then i else SpaceFrom(s, i + 1)
  }

  /** Python's s.split(maxsplit=1): the first whitespace-delimited word and, when anything follows, the rest. */
  function SplitOnce(s: string): (parts: seq<string>)
    ensures |parts| <= 2
    ensures forall k :: 0 <= k < |parts| ==> parts[k] != [] && !IsSpace(parts[k][0])
  {
    var t := LStrip(s);
    LStripShape(s);
    if t == [] then []
    else
      var k := SpaceFrom(t, 0);
      var rest := LStrip(t[k..]);
      LStripShape(t[k..]);
      if rest == [] then [t[..k]] else [t[..k], rest]
  }

  /** A command word, whitespace and an argument split into exactly the word and the argument. */
  lemma SplitOnceCommand(word: string, gap: string, arg: string)
    requires word != [] && NoSpace(word)
    requires gap != [] && forall i :: 0 <= i < |gap| ==> IsSpace(gap[i])
    requires arg != [] && !IsSpace(arg[0])
    ensures SplitOnce(word + gap + arg) == [word, arg]
  {
    var s := word + gap + arg;
    assert LStrip(s) == s;
    assert SpaceFrom(s, 0) == |word| by {
      assert s[|word|] == gap[0];
    }
    assert s[..|word|] == word;
    assert s[|word|..] == gap + arg;
    LStripPrefix(gap, arg);
  }

  lemma {:induction false} LStripPrefix(gap: string, arg: string)
    requires forall i :: 0 <= i < |gap| ==> IsSpace(gap[i])
    requires arg == [] || !IsSpace(arg[0])
    ensures LStrip(gap + arg) == arg
    decreases |gap|
  {
    if gap != [] {
      assert (gap + arg)[1..] == gap[1..] + arg;
      LStripPrefix(gap[1..], arg);
    } else {
      assert gap + arg == arg;
    }
  }

  predicate IsDigit(c: char) {
    '0' <= c <= '9'
  }

  /** str.isdigit() on the ASCII digits (a non-empty string of digits). */
  predicate AllDigits(s: string) {
    forall i :: 0 <= i < |s| ==> IsDigit(s[i])
  }

  function DigitValue(c: char): nat
    requires IsDigit(c)
  {
    c as int - '0' as int
  }

  function DigitChar(d: nat): char
    requires d < 10
  {
    ('0' as int + d) as char
  }

  /** The number a string of decimal digits denotes. */
  function DecimalValue(s: string): nat
    requires AllDigits(s)
    decreases |s|
  {
    if s == [] then 0 else 10 * DecimalValue(s[..|s| - 1]) + DigitValue(s[|s| - 1])
  }

  /** str(n) for a natural number: the digits whose value is n. */
  function NatToDecimal(n: nat): (s: string)
    ensures s != [] && AllDigits(s) && DecimalValue(s) == n
    decreases n
  {
    if n < 10 then [DigitChar(n)]
    else
      var t := NatToDecimal(n / 10);
      var s := t + [DigitChar(n % 10)];
      assert s[..|s| - 1] == t;
      s
  }

  /** str(i) for an integer. */
  function IntToDecimal(i: int): string {
    if i < 0 then "-" + NatToDecimal(-i) else NatToDecimal(i)
  }

  /** int(s) for a string: optional surrounding whitespace, an optional sign, then decimal digits. */
  function ParseInt(s: string): Option<int> {
    var t := Strip(s);
    if t != [] && (t[0] == '-' || t[0] == '+') then
      if t[1..] != [] && AllDigits(t[1..]) then
        var v: int := DecimalValue(t[1..]);
        Some(if t[0] == '-' then -v else v)
      else None
    else if t != [] && AllDigits(t) then Some(DecimalValue(t))
    else None
  }

  /** str(i) is never padded and consists of an optional minus and digits. */
  lemma IntToDecimalShape(i: int)
    ensures var s := IntToDecimal(i); s != [] && NoSpace(s)
    ensures var s := IntToDecimal(i); (s[0] == '-' && s[1..] != [] && AllDigits(s[1..])) || AllDigits(s)
  {
    var s := IntToDecimal(i);
    if i < 0 {
      assert s[1..] == NatToDecimal(-i);
    }
  }

  /** int(str(i)) == i */
  lemma ParseIntOfDecimal(i: int)
    ensures ParseInt(IntToDecimal(i)) == Some(i)
  {
    var s := IntToDecimal(i);
    IntToDecimalShape(i);
    StripUnpadded(s);
    if i < 0 {
      assert s[1..] == NatToDecimal(-i);
    }
  }

  function LowerChar(c: char): char {
    if 'A' <= c <= 'Z' then (c as int + 32) as char else c
  }

  /** str.lower() on ASCII letters. */
  function Lower(s: string): (r: string)
    ensures |r| == |s|
    ensures forall i :: 0 <= i < |s| ==> r[i] == LowerChar(s[i])
  {
    seq(|s|, i requires 0 <= i < |s| => LowerChar(s[i]))
  }
}
