/** The string handling the authorization gate relies on: turning a header
    value into text, taking whitespace-separated tokens one at a time
    (`str::split_whitespace` followed by `next()`), and splitting on a
    separator character (`str::split`). */
module Text {
  import opened Wrappers

  type Byte = b: int | 0 <= b < 256

  /** The bytes `HeaderValue::to_str` accepts: visible ASCII and tab. */
  predicate IsVisibleAscii(b: Byte) {
    (32 <= b < 127) || b == 9
  }

  /** `HeaderValue::to_str`: the header as text when every byte is visible
      ASCII (or tab), and nothing otherwise. */
  function HeaderToStr(raw: seq<Byte>): (r: Option<string>)
    ensures r.Some? <==> forall i :: 0 <= i < |raw| ==> IsVisibleAscii(raw[i])
    ensures r.Some? ==> |r.value| == |raw| && forall i :: 0 <= i < |raw| ==> r.value[i] as int == raw[i]
  {
    if forall i :: 0 <= i < |raw| ==> IsVisibleAscii(raw[i])
    then Some(seq(|raw|, i requires 0 <= i < |raw| => raw[i] as char))
    else None
  }

  /** `char::is_whitespace`: the Unicode White_Space property. */
  predicate IsWhitespace(c: char) {
    || ('\U{9}' <= c <= '\U{D}') || c == ' ' || c == '\U{85}' || c == '\U{A0}'
    || c == '\U{1680}' || ('\U{2000}' <= c <= '\U{200A}') || c == '\U{2028}'
    || c == '\U{2029}' || c == '\U{202F}' || c == '\U{205F}' || c == '\U{3000}'
  }

  predicate AllWhitespace(s: string) {
    forall i :: 0 <= i < |s| ==> IsWhitespace(s[i])
  }

  predicate NoWhitespace(s: string) {
    forall i :: 0 <= i < |s| ==> !IsWhitespace(s[i])
  }

  /** `s` without its leading whitespace. */
  function TrimStart(s: string): (t: string)
    ensures |t| <= |s| && t == s[|s| - |t|..]
    ensures AllWhitespace(s[..|s| - |t|])
    ensures t == [] || !IsWhitespace(t[0])
    ensures t == [] <==> AllWhitespace(s)
  {
    if s == [] || !IsWhitespace(s[0]) then s else TrimStart(s[1..])
  }

  /** The length of the longest whitespace-free prefix of `s`. */
  function WordLength(s: string): (n: nat)
    ensures n <= |s| && NoWhitespace(s[..n])
    ensures n == |s| || IsWhitespace(s[n])
  {
    if s == [] || IsWhitespace(s[0]) then 0 else 1 + WordLength(s[1..])
  }

  /** One `next()` on `split_whitespace`: the first maximal run of
      non-whitespace characters and the text after it, or nothing when `s`
      is blank. */
  function NextToken(s: string): (r: Option<(string, string)>)
    ensures r.None? <==> AllWhitespace(s)
    ensures r.Some? ==>
      && r.value.0 != [] && NoWhitespace(r.value.0)
      && (r.value.1 == [] || IsWhitespace(r.value.1[0]))
      && |r.value.0| + |r.value.1| <= |s|
      && s == s[..|s| - |r.value.0| - |r.value.1|] + r.value.0 + r.value.1
      && AllWhitespace(s[..|s| - |r.value.0| - |r.value.1|])
  {
    var t := TrimStart(s);
    if t == [] then None
    else
      var n := WordLength(t);
      WordAfterBlank(s, t, n);
      Some((t[..n], t[n..]))
  }

  /** `s` cut into its blank lead, the word of length `n` at the start of
      `t`, and what follows the word. */
  lemma WordAfterBlank(s: string, t: string, n: nat)
    requires |t| <= |s| && t == s[|s| - |t|..] && AllWhitespace(s[..|s| - |t|])
    requires n <= |t|
    ensures |t[..n]| + |t[n..]| <= |s|
    ensures s[..|s| - |t[..n]| - |t[n..]|] == s[..|s| - |t|]
    ensures s == s[..|s| - |t[..n]| - |t[n..]|] + t[..n] + t[n..]
  {
    assert s == s[..|s| - |t|] + t;
    assert t == t[..n] + t[n..];
  }

  /** The converse of NextToken's contract: a blank prefix, a word and a
      rest that starts at a word boundary are exactly what `next()` takes
      apart. */
  lemma NextTokenOf(lead: string, w: string, rest: string)
    requires AllWhitespace(lead)
    requires w != [] && NoWhitespace(w)
    requires rest == [] || IsWhitespace(rest[0])
    ensures NextToken(lead + w + rest) == Some((w, rest))
  {
    var s := lead + w + rest;
    assert s == lead + (w + rest);
    TrimStartOf(lead, w + rest);
    assert TrimStart(s) == w + rest;
    WordLengthOf(w, rest);
    assert (w + rest)[..|w|] == w && (w + rest)[|w|..] == rest;
  }

  lemma {:induction false} TrimStartOf(lead: string, t: string)
    requires AllWhitespace(lead)
    requires t != [] && !IsWhitespace(t[0])
    ensures TrimStart(lead + t) == t
  {
    if lead != [] {
      assert (lead + t)[1..] == lead[1..] + t;
      TrimStartOf(lead[1..], t);
    } else {
      assert lead + t == t;
    }
  }

  lemma {:induction false} WordLengthOf(w: string, rest: string)
    requires NoWhitespace(w)
    requires rest == [] || IsWhitespace(rest[0])
    ensures WordLength(w + rest) == |w|
  {
    if w != [] {
      assert (w + rest)[1..] == w[1..] + rest;
      WordLengthOf(w[1..], rest);
    } else {
      assert w + rest == rest;
    }
  }

  /** `str::split(sep)`: the pieces between the separators, always at least
      one (possibly empty). */
  function Split(s: string, sep: char): (parts: seq<string>)
    ensures |parts| >= 1
    ensures forall k :: 0 <= k < |parts| ==> sep !in parts[k]
  {
    if s == [] then [[]]
    else
      var tail := Split(s[1..], sep);
      if s[0] == sep then [[]] + tail
      else [[s[0]] + tail[0]] + tail[1..]
  }

  /** Reference inverse of Split: the pieces glued back with `sep`. */
  function Join(parts: seq<string>, sep: char): string
    requires |parts| >= 1
  {
    if |parts| == 1 then parts[0] else parts[0] + [sep] + Join(parts[1..], sep)
  }

  /** Splitting loses nothing: joining the pieces gives the text back. */
  lemma {:induction false} JoinSplit(s: string, sep: char)
    ensures Join(Split(s, sep), sep) == s
  {
    if s != [] {
      var tail := Split(s[1..], sep);
      JoinSplit(s[1..], sep);
      if s[0] == sep {
        assert Split(s, sep)[1..] == tail;
      } else {
        var parts := Split(s, sep);
        if |tail| == 1 {
          assert parts == [[s[0]] + tail[0]];
        } else {
          assert parts[1..] == tail[1..];
          assert Join(tail, sep) == tail[0] + [sep] + Join(tail[1..], sep);
        }
      }
    }
  }

  /** Pieces that hold no separator are recovered exactly by splitting
      their join. */
  lemma {:induction false} SplitJoin(parts: seq<string>, sep: char)
    requires |parts| >= 1
    requires forall k :: 0 <= k < |parts| ==> sep !in parts[k]
    ensures Split(Join(parts, sep), sep) == parts
  {
    if |parts| == 1 {
      SplitPiece(parts[0], [], sep);
      assert parts[0] + [] == parts[0];
    } else {
      var rest := Join(parts[1..], sep);
      SplitJoin(parts[1..], sep);
      SplitPiece(parts[0], [sep] + rest, sep);
      assert Split([sep] + rest, sep) == [[]] + Split(rest, sep) by {
        assert ([sep] + rest)[1..] == rest;
      }
      var after := Split([sep] + rest, sep);
      assert after[0] == [] && after[1..] == parts[1..];
      assert parts[0] + after[0] == parts[0];
      assert Join(parts, sep) == parts[0] + ([sep] + rest);
      assert parts == [parts[0]] + parts[1..];
    }
  }

  /** A separator-free prefix lands in the first piece. */
  lemma {:induction false} SplitPiece(w: string, t: string, sep: char)
    requires sep !in w
    ensures Split(w + t, sep) == [w + Split(t, sep)[0]] + Split(t, sep)[1..]
  {
    if w != [] {
      assert (w + t)[1..] == w[1..] + t;
      SplitPiece(w[1..], t, sep);
      assert [w[0]] + (w[1..] + Split(t, sep)[0]) == w + Split(t, sep)[0];
    } else {
      assert w + t == t;
      assert w + Split(t, sep)[0] == Split(t, sep)[0];
      assert Split(t, sep) == [Split(t, sep)[0]] + Split(t, sep)[1..];
    }
  }
}
