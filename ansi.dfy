/**
 * escape_minecraft_command_returns (minecraft.py): removes the ECMA-48 escape
 * sequences rcon-cli leaves in its output. Two shapes are removed:
 *  - ESC followed by one C1 "Fe" byte, 0x40-0x5A or 0x5C-0x5F (section 5.3 of ECMA-48);
 *  - a control sequence: ESC '[' then parameter bytes 0x30-0x3F, intermediate
 *    bytes 0x20-0x2F and one final byte 0x40-0x7E (section 5.4 of ECMA-48).
 * The source does this with one regular-expression substitution; here it is a
 * left-to-right scanner, and the lemmas below show it removes exactly the
 * sequences the declarative definition IsEscapeSequence describes.
 */
module Ansi {
  const ESC: char := '\U{1B}'

  predicate IsFe(c: char) {
    ('@' <= c <= 'Z') || ('\\' <= c <= '_')
  }

  predicate IsParameter(c: char) {
    '0' <= c <= '?'
  }

  predicate IsIntermediate(c: char) {
    ' ' <= c <= '/'
  }

  predicate IsFinal(c: char) {
    '@' <= c <= '~'
  }

  /** The end of the longest run of characters satisfying p that starts at i. */
  function Run(s: string, i: nat, p: char -> bool): (j: nat)
    requires i <= |s|
    ensures i <= j <= |s|
    ensures forall k :: i <= k < j ==> p(s[k])
    ensures j == |s| || !p(s[j])
    decreases |s| - i
  {
    if i < |s| && p(s[i]) then Run(s, i + 1, p) else i
  }

  /** The length of the escape sequence s starts with, or 0 when it starts with none. */
  function MatchLength(s: string): (n: nat)
    ensures n <= |s|
  {
    if |s| < 2 || s[0] != ESC then 0
    else if IsFe(s[1]) then 2
    else if s[1] == '[' then
      var p := Run(s, 2, IsParameter);
      var q := Run(s, p, IsIntermediate);
      if q < |s| && IsFinal(s[q]) then q + 1 else 0
    else 0
  }

  /** escape_minecraft_command_returns: every escape sequence removed, scanning from the left. */
  function StripEscapes(s: string): (r: string)
    ensures |r| <= |s|
    decreases |s|
  {
    if s == [] then []
    else
      var n := MatchLength(s);
      if n > 0 then StripEscapes(s[n..]) else [s[0]] + StripEscapes(s[1..])
  }

  /** Stripping only removes characters: what is left is a sub-multiset of the input. */
  lemma {:induction false} StripRemovesOnly(s: string)
    ensures multiset(StripEscapes(s)) <= multiset(s)
    decreases |s|
  {
    if s != [] {
      var n := MatchLength(s);
      if n > 0 {
        StripRemovesOnly(s[n..]);
        assert s == s[..n] + s[n..];
      } else {
        StripRemovesOnly(s[1..]);
        assert s == [s[0]] + s[1..];
      }
    }
  }

  /** The two escape-sequence shapes, stated without reference to the scanner. */
  ghost predicate IsEscapeSequence(e: string) {
    || (|e| == 2 && e[0] == ESC && IsFe(e[1]))
    || (|e| >= 3 && e[0] == ESC && e[1] == '[' && IsFinal(e[|e| - 1])
        && exists k :: 2 <= k <= |e| - 1 && IsCsiBody(e, k))
  }

  /** e[2..k] are parameter bytes and e[k..|e|-1] are intermediate bytes. */
  ghost predicate IsCsiBody(e: string, k: int)
    requires 2 <= k <= |e| - 1
  {
    (forall i :: 2 <= i < k ==> IsParameter(e[i])) && (forall i :: k <= i < |e| - 1 ==> IsIntermediate(e[i]))
  }

  /** What the scanner matches is an escape sequence. */
  lemma MatchLengthSound(s: string)
    requires MatchLength(s) > 0
    ensures IsEscapeSequence(s[..MatchLength(s)])
  {
    var n := MatchLength(s);
    var e := s[..n];
    if !IsFe(s[1]) {
      var p := Run(s, 2, IsParameter);
      assert IsCsiBody(e, p);
    }
  }

  /** The run of characters satisfying p in a + b stops where the run in a stops, when a's run ends inside a. */
  lemma RunStopsAt(s: string, i: nat, j: nat, p: char -> bool)
    requires i <= j < |s| && !p(s[j])
    requires forall k :: i <= k < j ==> p(s[k])
    ensures Run(s, i, p) == j
  {
  }

  /** An escape sequence at the front of a string is matched whole, whatever follows it. */
  lemma MatchLengthComplete(e: string, rest: string)
    requires IsEscapeSequence(e)
    ensures MatchLength(e + rest) == |e|
  {
    var s := e + rest;
    if !(|e| == 2 && IsFe(e[1])) {
      var k :| 2 <= k <= |e| - 1 && IsCsiBody(e, k);
      RunStopsAt(s, 2, k, IsParameter);
      RunStopsAt(s, k, |e| - 1, IsIntermediate);
    }
  }

  /** An escape sequence at the front is dropped. */
  lemma StripDropsSequence(e: string, rest: string)
    requires IsEscapeSequence(e)
    ensures StripEscapes(e + rest) == StripEscapes(rest)
  {
    MatchLengthComplete(e, rest);
    assert (e + rest)[|e|..] == rest;
  }

  /** Any character other than ESC at the front is kept. */
  lemma StripKeepsPlain(c: char, rest: string)
    requires c != ESC
    ensures StripEscapes([c] + rest) == [c] + StripEscapes(rest)
  {
    assert ([c] + rest)[1..] == rest;
  }

  /** Text without ESC comes back unchanged. */
  lemma {:induction false} StripPlainText(s: string)
    requires forall i :: 0 <= i < |s| ==> s[i] != ESC
    ensures StripEscapes(s) == s
    decreases |s|
  {
    if s != [] {
      StripKeepsPlain(s[0], s[1..]);
      assert s == [s[0]] + s[1..];
      StripPlainText(s[1..]);
    }
  }

  /** Output as a sequence of pieces: a visible character or an escape sequence. */
  datatype Piece = Char(c: char) | Code(e: string)

  ghost predicate WellFormed(ps: seq<Piece>) {
    forall i :: 0 <= i < |ps| ==> match ps[i]
      case Char(c) => c != ESC
      case Code(e) => IsEscapeSequence(e)
  }

  /** The text as written to the terminal, with its escape sequences. */
  function Render(ps: seq<Piece>): string {
    if ps == [] then [] else (match ps[0] case Char(c) => [c] case Code(e) => e) + Render(ps[1..])
  }

  /** The visible characters alone. */
  function Visible(ps: seq<Piece>): string {
    if ps == [] then [] else (match ps[0] case Char(c) => [c] case Code(e) => []) + Visible(ps[1..])
  }

  /** Stripping rendered output leaves exactly its visible characters. */
  lemma {:induction false} StripRendered(ps: seq<Piece>)
    requires WellFormed(ps)
    ensures StripEscapes(Render(ps)) == Visible(ps)
    decreases |ps|
  {
    if ps != [] {
      assert WellFormed(ps[1..]) by {
        forall i | 0 <= i < |ps| - 1 ensures ps[1..][i] == ps[i + 1] { }
      }
      StripRendered(ps[1..]);
      match ps[0]
      case Char(c) =>
        StripKeepsPlain(c, Render(ps[1..]));
      case Code(e) =>
        StripDropsSequence(e, Render(ps[1..]));
    }
  }

  /** Text without ESC in front of anything is kept, and the rest is stripped on its own. */
  lemma {:induction false} StripPlainPrefix(p: string, rest: string)
    requires forall i :: 0 <= i < |p| ==> p[i] != ESC
    ensures StripEscapes(p + rest) == p + StripEscapes(rest)
    decreases |p|
  {
    if p != [] {
      var tail := p[1..] + rest;
      assert p + rest == [p[0]] + tail;
      StripKeepsPlain(p[0], tail);
      StripPlainPrefix(p[1..], rest);
      assert StripEscapes(p + rest) == [p[0]] + (p[1..] + StripEscapes(rest));
      assert [p[0]] + (p[1..] + StripEscapes(rest)) == p + StripEscapes(rest);
    } else {
      assert p + rest == rest;
    }
  }

  /** Select Graphic Rendition: green text, then back to normal. */
  const GREEN: string := "\U{1B}[0;32m"
  const RESET: string := "\U{1B}[0m"

  lemma GreenIsEscape()
    ensures IsEscapeSequence(GREEN)
  {
    assert IsCsiBody(GREEN, |GREEN| - 1);
  }

  lemma ResetIsEscape()
    ensures IsEscapeSequence(RESET)
  {
    assert IsCsiBody(RESET, |RESET| - 1);
  }

  /** An escape sequence on its own strips to nothing. */
  lemma StripSequenceAlone(e: string)
    requires IsEscapeSequence(e)
    ensures StripEscapes(e) == []
  {
    assert e + [] == e;
    StripDropsSequence(e, []);
  }

  /** Text between an opening and a closing escape sequence keeps only the text. */
  lemma StripWrapped(opening: string, text: string, close: string)
    requires IsEscapeSequence(opening) && IsEscapeSequence(close)
    requires forall i :: 0 <= i < |text| ==> text[i] != ESC
    ensures StripEscapes(opening + text + close) == text
  {
    assert opening + text + close == opening + (text + close);
    StripDropsSequence(opening, text + close);
    StripPlainPrefix(text, close);
    StripSequenceAlone(close);
    assert text + [] == text;
  }

  /** A coloured rcon-cli reply loses its colour codes. */
  lemma StripColouredReply(text: string)
    requires forall i :: 0 <= i < |text| ==> text[i] != ESC
    ensures StripEscapes(GREEN + text + RESET) == text
  {
    GreenIsEscape();
    ResetIsEscape();
    StripWrapped(GREEN, text, RESET);
  }
}
