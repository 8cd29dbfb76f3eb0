/** The small option type used by every module of the model. */
module Wrappers {
  datatype Option<+T> = None | Some(value: T)
}

/**
 * String handling shared by the pipeline scripts: Python's `str.strip()`,
 * `str.lower()`, the `re.sub(r"\D", "", x)` phone normaliser, the `in`
 * substring test and SQL-file splitting on ';'.
 */
module Text {

  /** Python's `str.isspace()` for one character: exactly the code points
      that `str.strip()` with no argument removes. */
  predicate IsSpace(c: char) {
    || c == ' '
    || ('\t' <= c <= '\r')                 // \t \n \v \f \r
    || ('\U{1c}' <= c <= '\U{1f}')         // file, group, record and unit separators
    || c == '\U{85}' || c == '\U{a0}' || c == '\U{1680}'
    || ('\U{2000}' <= c <= '\U{200a}')
    || c == '\U{2028}' || c == '\U{2029}' || c == '\U{202f}'
    || c == '\U{205f}' || c == '\U{3000}'
  }

  ghost predicate AllSpace(s: string) {
    forall k :: 0 <= k < |s| ==> IsSpace(s[k])
  }

  /** No leading and no trailing whitespace. */
  predicate IsStripped(s: string) {
    s == [] || (!IsSpace(s[0]) && !IsSpace(s[|s| - 1]))
  }

  /** `str.lstrip()`: the longest suffix that does not start with whitespace. */
  function TrimStart(s: string): (r: string)
    ensures |r| <= |s| && r == s[|s| - |r|..]
    ensures AllSpace(s[..|s| - |r|])
    ensures r == [] || !IsSpace(r[0])
  {
    if |s| > 0 && IsSpace(s[0]) then
      var r := TrimStart(s[1..]);
      var n := |s| - |r|;
      assert s[1..][n - 1..] == s[n..];
      assert forall k :: 1 <= k < n ==> s[1..][..n - 1][k - 1] == s[k];
      r
    else s
  }

  /** `str.rstrip()`: the longest prefix that does not end with whitespace. */
  function TrimEnd(s: string): (r: string)
    ensures |r| <= |s| && r == s[..|r|]
    ensures AllSpace(s[|r|..])
    ensures r == [] || !IsSpace(r[|r| - 1])
  {
    if |s| > 0 && IsSpace(s[|s| - 1]) then
      var r := TrimEnd(s[..|s| - 1]);
      assert s[..|s| - 1][..|r|] == s[..|r|];
      assert forall k :: |r| <= k < |s| - 1 ==> s[..|s| - 1][|r|..][k - |r|] == s[k];
      r
    else s
  }

  /** `str.strip()`: the left-trimmed string cut back to its longest prefix
      that does not end with whitespace. */
  function Strip(s: string): (r: string)
    ensures IsStripped(r)
    ensures |r| <= |TrimStart(s)| <= |s|
    ensures r == TrimStart(s)[..|r|]
    ensures AllSpace(TrimStart(s)[|r|..])
  {
    var t := TrimStart(s);
    var r := TrimEnd(t);
    assert r != [] ==> r[0] == t[0];
    r
  }

  /** Every character of the stripped string comes from the original. */
  lemma StripMember(s: string, c: char)
    requires c in Strip(s)
    ensures c in s
  {
    var t := TrimStart(s);
    var r := Strip(s);
    var k :| 0 <= k < |r| && r[k] == c;
    assert t[k] == c;
    assert s[|s| - |t| + k] == c;
  }

  /** Stripping removes exactly the whitespace padding around a stripped core:
      this pins `Strip` down completely. */
  lemma {:induction false} StripPadding(pre: string, core: string, post: string)
    requires AllSpace(pre) && AllSpace(post) && IsStripped(core)
    ensures Strip(pre + core + post) == core
  {
    if core == [] {
      assert pre + core + post == pre + post;
      StripBlank(pre, post);
    } else {
      StripAroundCore(pre, core, post);
    }
  }

  lemma StripBlank(pre: string, post: string)
    requires AllSpace(pre) && AllSpace(post)
    ensures Strip(pre + post) == []
  {
    assert pre + post == (pre + post) + [];
    AllSpaceAppend(pre, post);
    TrimStartPadding(pre + post, []);
  }

  lemma StripAroundCore(pre: string, core: string, post: string)
    requires AllSpace(pre) && AllSpace(post) && core != [] && IsStripped(core)
    ensures Strip(pre + core + post) == core
  {
    assert pre + core + post == pre + (core + post);
    TrimStartPadding(pre, core + post);
    TrimEndPadding(core, post);
  }

  lemma AllSpaceAppend(a: string, b: string)
    requires AllSpace(a) && AllSpace(b)
    ensures AllSpace(a + b)
  {
    forall k | 0 <= k < |a + b| ensures IsSpace((a + b)[k]) {
      if k < |a| {
        assert (a + b)[k] == a[k];
      } else {
        assert (a + b)[k] == b[k - |a|];
      }
    }
  }

  lemma {:induction false} TrimStartPadding(pre: string, rest: string)
    requires AllSpace(pre) && (rest == [] || !IsSpace(rest[0]))
    ensures TrimStart(pre + rest) == rest
  {
    if pre != [] {
      assert (pre + rest)[1..] == pre[1..] + rest;
      assert forall k :: 0 <= k < |pre| - 1 ==> pre[1..][k] == pre[k + 1];
      TrimStartPadding(pre[1..], rest);
    }
  }

  lemma {:induction false} TrimEndPadding(rest: string, post: string)
    requires AllSpace(post) && (rest == [] || !IsSpace(rest[|rest| - 1]))
    ensures TrimEnd(rest + post) == rest
  {
    if post != [] {
      assert (rest + post)[..|rest + post| - 1] == rest + post[..|post| - 1];
      assert forall k :: 0 <= k < |post| - 1 ==> post[..|post| - 1][k] == post[k];
      TrimEndPadding(rest, post[..|post| - 1]);
    } else {
      assert rest + post == rest;
    }
  }

  /** A stripped string is its own strip, so stripping is idempotent. */
  lemma StripStripped(s: string)
    requires IsStripped(s)
    ensures Strip(s) == s
  {
    StripPadding([], s, []);
    assert [] + s + [] == s;
  }

  lemma StripIdempotent(s: string)
    ensures Strip(Strip(s)) == Strip(s)
  {
    StripStripped(Strip(s));
  }

  // ---------------------------------------------------------------------
  // Lower case (ASCII letters)

  predicate IsUpper(c: char) { 'A' <= c <= 'Z' }

  function LowerChar(c: char): (r: char)
    ensures !IsUpper(r)
    ensures !IsUpper(c) ==> r == c
    ensures IsUpper(c) ==> r as int == c as int + 32
  {
    if IsUpper(c) then (c as int - 'A' as int + 'a' as int) as char else c
  }

  /** `str.lower()` restricted to ASCII letters. */
  function Lower(s: string): (r: string)
    ensures |r| == |s|
    ensures forall k :: 0 <= k < |r| ==> !IsUpper(r[k])
    ensures forall k :: 0 <= k < |r| && !IsUpper(s[k]) ==> r[k] == s[k]
    ensures forall k :: 0 <= k < |r| && IsUpper(s[k]) ==> r[k] as int == s[k] as int + 32
  {
    seq(|s|, k requires 0 <= k < |s| => LowerChar(s[k]))
  }

  lemma LowerIdempotent(s: string)
    ensures Lower(Lower(s)) == Lower(s)
  {
  }

  // ---------------------------------------------------------------------
  // Digits only

  predicate IsDigit(c: char) { '0' <= c <= '9' }

  /** `re.sub(r"\D", "", s)`: drop every character that is not a digit. */
  function DigitsOnly(s: string): (r: string)
    ensures |r| <= |s|
    ensures forall k :: 0 <= k < |r| ==> IsDigit(r[k])
  {
    if s == [] then []
    else if IsDigit(s[0]) then [s[0]] + DigitsOnly(s[1..])
    else DigitsOnly(s[1..])
  }

  /** One character: a digit is kept, anything else is dropped. */
  lemma DigitsOnlySingle(c: char)
    ensures DigitsOnly([c]) == if IsDigit(c) then [c] else []
  {
    assert [c][1..] == [];
  }

  /** The digits are kept in their original order: normalising a
      concatenation normalises each part. */
  lemma {:induction false} DigitsOnlyAppend(a: string, b: string)
    ensures DigitsOnly(a + b) == DigitsOnly(a) + DigitsOnly(b)
  {
    if a != [] {
      assert (a + b)[1..] == a[1..] + b;
      DigitsOnlyAppend(a[1..], b);
    } else {
      assert a + b == b;
    }
  }

  /** A string of digits is untouched; hence normalising is idempotent. */
  lemma {:induction false} DigitsOnlyOfDigits(s: string)
    requires forall k :: 0 <= k < |s| ==> IsDigit(s[k])
    ensures DigitsOnly(s) == s
  {
    if s != [] {
      DigitsOnlyOfDigits(s[1..]);
    }
  }

  /** Digits are not whitespace, so a string of digits is stripped. */
  lemma DigitsStripped(s: string)
    requires forall k :: 0 <= k < |s| ==> IsDigit(s[k])
    ensures IsStripped(s)
  {
  }

  lemma DigitsOnlyIdempotent(s: string)
    ensures DigitsOnly(DigitsOnly(s)) == DigitsOnly(s)
  {
    DigitsOnlyOfDigits(DigitsOnly(s));
  }

  // ---------------------------------------------------------------------
  // Substring test (Python's `needle in hay` on strings)

  ghost predicate OccursAt(hay: string, needle: string, i: nat) {
    i + |needle| <= |hay| && hay[i..i + |needle|] == needle
  }

  function Contains(hay: string, needle: string): (b: bool)
    decreases |hay|
  {
    (|needle| <= |hay| && hay[..|needle|] == needle)
    || (|hay| > 0 && Contains(hay[1..], needle))
  }

  /** `Contains` holds exactly when the needle occurs at some position. */
  lemma ContainsIff(hay: string, needle: string)
    ensures Contains(hay, needle) <==> exists i: nat :: OccursAt(hay, needle, i)
  {
    if Contains(hay, needle) {
      var i := ContainsWitness(hay, needle);
    }
    if i: nat :| OccursAt(hay, needle, i) {
      OccursContains(hay, needle, i);
    }
  }

  /** A position where the needle occurs, when `Contains` holds. */
  lemma {:induction false} ContainsWitness(hay: string, needle: string) returns (i: nat)
    requires Contains(hay, needle)
    ensures OccursAt(hay, needle, i)
    decreases |hay|
  {
    if |needle| <= |hay| && hay[..|needle|] == needle {
      i := 0;
    } else {
      var j := ContainsWitness(hay[1..], needle);
      assert hay[1..][j..j + |needle|] == hay[j + 1..j + 1 + |needle|];
      i := j + 1;
    }
  }

  /** An occurrence at any position makes `Contains` hold. */
  lemma {:induction false} OccursContains(hay: string, needle: string, i: nat)
    requires OccursAt(hay, needle, i)
    ensures Contains(hay, needle)
    decreases i
  {
    if i > 0 {
      assert hay[1..][i - 1..i - 1 + |needle|] == hay[i..i + |needle|];
      OccursContains(hay[1..], needle, i - 1);
    }
  }

  // ---------------------------------------------------------------------
  // Splitting on ';' (Python's `text.split(";")`)

  /** The pieces between separators, in order; there is always one more
      piece than there are separators. */
  function Split(s: string): (r: seq<string>)
    ensures |r| >= 1
    ensures forall k :: 0 <= k < |r| ==> ';' !in r[k]
  {
    if s == [] then [""]
    else
      var rest := Split(s[1..]);
      if s[0] == ';' then [""] + rest
      else [[s[0]] + rest[0]] + rest[1..]
  }

  /** `";".join(pieces)`. */
  function Join(pieces: seq<string>): string
    requires |pieces| >= 1
  {
    if |pieces| == 1 then pieces[0] else pieces[0] + ";" + Join(pieces[1..])
  }

  function CountSep(s: string): nat {
    if s == [] then 0 else (if s[0] == ';' then 1 else 0) + CountSep(s[1..])
  }

  /** Splitting loses nothing: joining the pieces gives the text back, and
      the number of pieces is the number of separators plus one. */
  lemma {:induction false} SplitJoin(s: string)
    ensures Join(Split(s)) == s
    ensures |Split(s)| == CountSep(s) + 1
  {
    if s != [] {
      var rest := Split(s[1..]);
      SplitJoin(s[1..]);
      if s[0] == ';' {
        assert ([""] + rest)[1..] == rest;
      } else {
        var r := [[s[0]] + rest[0]] + rest[1..];
        if |rest| > 1 {
          assert r[1..] == rest[1..];
          assert Join(rest) == rest[0] + ";" + Join(rest[1..]);
        }
      }
    }
  }

  /** `[q.strip() for q in pieces if q.strip()]`. */
  function NonBlankStripped(pieces: seq<string>): (r: seq<string>)
    ensures |r| <= |pieces|
    ensures forall k :: 0 <= k < |r| ==> r[k] != "" && IsStripped(r[k])
  {
    if pieces == [] then []
    else
      var q := Strip(pieces[0]);
      var rest := NonBlankStripped(pieces[1..]);
      if q != "" then [q] + rest else rest
  }

  /** A separator absent from every piece is absent from every query. */
  lemma {:induction false} NonBlankStrippedNoSep(pieces: seq<string>, sep: char)
    requires NoneContain(pieces, sep)
    ensures NoneContain(NonBlankStripped(pieces), sep)
    decreases |pieces|
  {
    if pieces != [] {
      NoneContainTail(pieces, sep);
      NonBlankStrippedNoSep(pieces[1..], sep);
      if sep in Strip(pieces[0]) {
        StripMember(pieces[0], sep);
      }
      NoneContainCons(Strip(pieces[0]), NonBlankStripped(pieces[1..]), sep);
    }
  }

  /** No string of the list contains the character. */
  ghost predicate NoneContain(pieces: seq<string>, c: char) {
    forall k :: 0 <= k < |pieces| ==> c !in pieces[k]
  }

  lemma NoneContainTail(pieces: seq<string>, c: char)
    requires pieces != [] && NoneContain(pieces, c)
    ensures c !in pieces[0] && NoneContain(pieces[1..], c)
  {
    assert forall k :: 0 <= k < |pieces| - 1 ==> pieces[1..][k] == pieces[k + 1];
  }

  lemma NoneContainCons(q: string, rest: seq<string>, c: char)
    requires c !in q && NoneContain(rest, c)
    ensures NoneContain([q] + rest, c)
  {
    forall k | 0 <= k < |[q] + rest| ensures c !in ([q] + rest)[k] {
      if k > 0 {
        assert ([q] + rest)[k] == rest[k - 1];
      }
    }
  }

  /** Queries keep the order of the pieces they come from. */
  lemma {:induction false} NonBlankStrippedAppend(a: seq<string>, b: seq<string>)
    ensures NonBlankStripped(a + b) == NonBlankStripped(a) + NonBlankStripped(b)
  {
    if a != [] {
      assert (a + b)[1..] == a[1..] + b;
      NonBlankStrippedAppend(a[1..], b);
    } else {
      assert a + b == b;
    }
  }

  /** A piece survives exactly when it is not blank, and then stripped. */
  lemma NonBlankStrippedSingle(p: string)
    ensures NonBlankStripped([p]) == if Strip(p) == "" then [] else [Strip(p)]
  {
    assert [p][1..] == [];
  }

  /** The statements of an SQL file: `[q.strip() for q in text.split(";") if q.strip()]`. */
  function SplitQueries(text: string): (qs: seq<string>)
    ensures |qs| <= CountSep(text) + 1
    ensures forall k :: 0 <= k < |qs| ==> qs[k] != "" && IsStripped(qs[k]) && ';' !in qs[k]
  {
    SplitJoin(text);
    NonBlankStrippedNoSep(Split(text), ';');
    assert NoneContain(NonBlankStripped(Split(text)), ';');
    NonBlankStripped(Split(text))
  }
}
