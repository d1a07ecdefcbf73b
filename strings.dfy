/**
 * String helpers the two serialisers rely on: repetition (strings.Repeat),
 * decimal formatting (strconv.Itoa), newline re-indentation
 * (strings.ReplaceAll with a "\n" pattern), trailing-space trimming
 * (strings.TrimRight with cutset " ") and concatenation of a sequence of writes.
 */
module Strings {

  /** `s` repeated `n` times. */
  function Repeat(s: string, n: nat): (r: string)
    ensures |r| == n * |s|
  {
    if n == 0 then "" else Repeat(s, n - 1) + s
  }

  // ---------------------------------------------------------------------------
  // Decimal formatting (strconv.Itoa on the non-negative values used here)

  function DigitChar(d: nat): (c: char)
    requires d < 10
    ensures '0' <= c <= '9'
  {
    "0123456789"[d]
  }

  function DigitValue(c: char): nat
    requires '0' <= c <= '9'
  {
    c as nat - '0' as nat
  }

  predicate IsDigits(s: string)
  {
    forall i :: 0 <= i < |s| ==> '0' <= s[i] <= '9'
  }

  /** Most-significant digit first. */
  function ParseDecimal(s: string): nat
    requires IsDigits(s)
  {
    if s == [] then 0 else 10 * ParseDecimal(s[..|s| - 1]) + DigitValue(s[|s| - 1])
  }

  /** The decimal rendering of `n`: non-empty, digits only, no leading zero. */
  function Itoa(n: nat): (r: string)
    ensures r != [] && IsDigits(r)
    ensures r[0] == '0' ==> n == 0 && r == "0"
  {
    if n < 10 then [DigitChar(n)] else Itoa(n / 10) + [DigitChar(n % 10)]
  }

  /** Reading the decimal rendering back yields the number. */
  lemma {:induction false} ParseItoa(n: nat)
    ensures ParseDecimal(Itoa(n)) == n
  {
    var r := Itoa(n);
    if n < 10 {
      assert r[..0] == "";
    } else {
      ParseItoa(n / 10);
      assert r[..|r| - 1] == Itoa(n / 10);
    }
  }

  // ---------------------------------------------------------------------------
  // Newline re-indentation

  /** Every "\n" of `s` replaced by "\n" + `indent`; all other characters kept. */
  function ReplaceNewlines(s: string, indent: string): (r: string)
    ensures indent == "" ==> r == s
    ensures |r| == |s| + Newlines(s) * |indent|
  {
    if s == [] then ""
    else if s[|s| - 1] == '\n' then ReplaceNewlines(s[..|s| - 1], indent) + "\n" + indent
    else ReplaceNewlines(s[..|s| - 1], indent) + [s[|s| - 1]]
  }

  function Newlines(s: string): nat
  {
    if s == [] then 0 else Newlines(s[..|s| - 1]) + (if s[|s| - 1] == '\n' then 1 else 0)
  }

  /** Drops `indent` after every "\n" that is followed by it: the inverse of ReplaceNewlines. */
  function Dedent(r: string, indent: string): string
    decreases |r|
  {
    if r == [] then ""
    else if r[0] == '\n' && indent <= r[1..] then "\n" + Dedent(r[1 + |indent|..], indent)
    else [r[0]] + Dedent(r[1..], indent)
  }

  /** Re-indentation distributes over concatenation. */
  lemma {:induction false} ReplaceNewlinesConcat(a: string, b: string, indent: string)
    ensures ReplaceNewlines(a + b, indent) == ReplaceNewlines(a, indent) + ReplaceNewlines(b, indent)
    decreases |b|
  {
    if b == [] {
      assert a + b == a;
    } else {
      var b' := b[..|b| - 1];
      assert (a + b)[..|a + b| - 1] == a + b';
      assert (a + b)[|a + b| - 1] == b[|b| - 1];
      ReplaceNewlinesConcat(a, b', indent);
    }
  }

  /** Removing the indentation after each newline gives the original text back. */
  lemma {:induction false} DedentReplaceNewlines(s: string, indent: string)
    ensures Dedent(ReplaceNewlines(s, indent), indent) == s
    decreases |s|
  {
    if s != [] {
      var c := s[0];
      var t := s[1..];
      assert s == [c] + t;
      ReplaceNewlinesConcat([c], t, indent);
      var rt := ReplaceNewlines(t, indent);
      DedentReplaceNewlines(t, indent);
      if c == '\n' {
        ReplaceNewline(indent);
        DedentNewline(indent, rt);
      } else {
        ReplaceOther(c, indent);
        DedentOther(c, indent, rt);
      }
    }
  }

  lemma ReplaceNewline(indent: string)
    ensures ReplaceNewlines("\n", indent) == "\n" + indent
  {
    assert "\n"[..0] == [];
  }

  lemma ReplaceOther(c: char, indent: string)
    requires c != '\n'
    ensures ReplaceNewlines([c], indent) == [c]
  {
    assert [c][..0] == [];
  }

  lemma DedentNewline(indent: string, rt: string)
    ensures Dedent("\n" + indent + rt, indent) == "\n" + Dedent(rt, indent)
  {
    var r := "\n" + indent + rt;
    assert r[1..] == indent + rt;
    assert r[1 + |indent|..] == rt;
  }

  lemma DedentOther(c: char, indent: string, rt: string)
    requires c != '\n'
    ensures Dedent([c] + rt, indent) == [c] + Dedent(rt, indent)
  {
    assert ([c] + rt)[1..] == rt;
  }

  // ---------------------------------------------------------------------------
  // Trailing-space trimming and concatenation

  /** `s` without its trailing spaces. */
  function TrimRightSpaces(s: string): (r: string)
    ensures r <= s
    ensures r == [] || r[|r| - 1] != ' '
    ensures forall i :: |r| <= i < |s| ==> s[i] == ' '
  {
    if s == [] || s[|s| - 1] != ' ' then s else TrimRightSpaces(s[..|s| - 1])
  }

  /** Trimming one appended space from text that does not end in a space. */
  lemma TrimOneSpace(s: string)
    requires s == [] || s[|s| - 1] != ' '
    ensures TrimRightSpaces(s + " ") == s
  {
    assert (s + " ")[..|s|] == s;
  }

  lemma ConcatAssoc<T>(a: seq<T>, b: seq<T>, c: seq<T>)
    ensures a + (b + c) == a + b + c
  {
  }

  lemma Regroup<T>(o: seq<T>, h: seq<T>, c: seq<T>, r: seq<T>, e: seq<T>)
    ensures o + (h + c + r) + e == o + (h + (c + r + e))
  {
  }

  lemma Regroup2<T>(a: seq<T>, h: seq<T>, c: seq<T>, r: seq<T>, e: seq<T>)
    ensures a + h + (c + r + e) == a + (h + c + r) + e
  {
  }

  /** The text produced by a sequence of writes. */
  function Flatten(ws: seq<string>): string
  {
    if ws == [] then "" else Flatten(ws[..|ws| - 1]) + ws[|ws| - 1]
  }

  lemma {:induction false} FlattenConcat(a: seq<string>, b: seq<string>)
    ensures Flatten(a + b) == Flatten(a) + Flatten(b)
    decreases |b|
  {
    if b == [] {
      assert a + b == a;
    } else {
      var b', x := b[..|b| - 1], b[|b| - 1];
      assert (a + b)[..|a + b| - 1] == a + b';
      assert (a + b)[|a + b| - 1] == x;
      FlattenConcat(a, b');
      assert Flatten(a + b) == Flatten(a + b') + x;
      assert Flatten(b) == Flatten(b') + x;
      ConcatAssoc(Flatten(a), Flatten(b'), x);
    }
  }
}
