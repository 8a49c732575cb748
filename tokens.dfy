/** Line tokenisation in lc3as.py: `remove_comment` (lc3as.py:422-430), `split`
    (lc3as.py:418-419, on `word_pattern` of lc3as.py:7) and the `str.strip()` that
    `parse` applies to every line (lc3as.py:444). */
module Tokens {
  import opened Lexer

  predicate IsSep(c: char) { c == ',' || IsSpace(c) }

  predicate IsQuote(c: char) { c == '\'' || c == '"' }

  predicate AllSep(s: string, a: nat, b: nat)
    requires a <= b <= |s|
  {
    forall p :: a <= p < b ==> IsSep(s[p])
  }

  // ----- split -----

  /** The first index from `j` on that holds `q` or a newline (which `.` does not
      match), or |s| when there is none. */
  function QuoteScan(s: string, q: char, j: nat): (k: nat)
    requires j <= |s|
    ensures j <= k <= |s|
    ensures forall p :: j <= p < k ==> s[p] != q && s[p] != '\n'
    ensures k < |s| ==> s[k] == q || s[k] == '\n'
    decreases |s| - j
  {
    if j == |s| || s[j] == q || s[j] == '\n' then j else QuoteScan(s, q, j + 1)
  }

  /** One of the alternatives `\'.*?\'` and `".*?"` matches at `i`. */
  predicate Closes(s: string, i: nat)
    requires i < |s|
  {
    IsQuote(s[i]) && QuoteScan(s, s[i], i + 1) < |s| && s[QuoteScan(s, s[i], i + 1)] == s[i]
  }

  /** The end of the longest run of characters that are neither commas nor whitespace. */
  function RunEnd(s: string, j: nat): (k: nat)
    requires j <= |s|
    ensures j <= k <= |s|
    ensures forall p :: j <= p < k ==> !IsSep(s[p])
    ensures k == |s| || IsSep(s[k])
    decreases |s| - j
  {
    if j < |s| && !IsSep(s[j]) then RunEnd(s, j + 1) else j
  }

  /** A shortest quoted run: a quote, no newline and no second such quote, the quote again. */
  predicate QuotedSpan(s: string, a: nat, b: nat)
    requires a < b <= |s|
  {
    b >= a + 2 && IsQuote(s[a]) && s[b - 1] == s[a]
    && forall p :: a < p < b - 1 ==> s[p] != s[a] && s[p] != '\n'
  }

  /** A longest run without commas or whitespace, where no quoted run starts. */
  predicate RunSpan(s: string, a: nat, b: nat)
    requires a < b <= |s|
  {
    !Closes(s, a) && (forall p :: a <= p < b ==> !IsSep(s[p])) && (b == |s| || IsSep(s[b]))
  }

  /** What `re.findall(word_pattern, s[i..])` reports, as spans `(start, end)`:
      tokens within bounds, each a quoted run or a run without separators, in
      left-to-right order with nothing but separators between and around them. */
  ghost predicate Tokenises(s: string, i: nat, r: seq<(nat, nat)>)
    requires i <= |s|
  {
    (forall k :: 0 <= k < |r| ==> i <= r[k].0 < r[k].1 <= |s|)
    && (forall k :: 0 <= k < |r| ==> QuotedSpan(s, r[k].0, r[k].1) || RunSpan(s, r[k].0, r[k].1))
    && (forall k :: 0 < k < |r| ==> r[k - 1].1 <= r[k].0 && AllSep(s, r[k - 1].1, r[k].0))
    && (|r| == 0 ==> AllSep(s, i, |s|))
    && (|r| > 0 ==> AllSep(s, i, r[0].0) && AllSep(s, r[|r| - 1].1, |s|))
  }

  /** The scan behind `re.findall(word_pattern, s)`: at each position the first
      alternative that matches gives a token and the scan resumes after it; at a
      separator nothing matches and the scan moves on by one. */
  function SpansFrom(s: string, i: nat): seq<(nat, nat)>
    requires i <= |s|
    decreases |s| - i
  {
    if i == |s| then []
    else if Closes(s, i) then
      var e := QuoteScan(s, s[i], i + 1) + 1;
      [(i, e)] + SpansFrom(s, e)
    else if !IsSep(s[i]) then
      var e := RunEnd(s, i);
      [(i, e)] + SpansFrom(s, e)
    else
      SpansFrom(s, i + 1)
  }

  /** Putting one token in front of a tokenisation of the rest. */
  lemma ConsTokenises(s: string, i: nat, e: nat, rest: seq<(nat, nat)>)
    requires i < e <= |s| && (QuotedSpan(s, i, e) || RunSpan(s, i, e))
    requires Tokenises(s, e, rest)
    ensures Tokenises(s, i, [(i, e)] + rest)
  {
    var r := [(i, e)] + rest;
    assert forall k :: 0 < k < |r| ==> r[k] == rest[k - 1];
    if |rest| > 0 {
      assert r[|r| - 1] == rest[|rest| - 1];
    }
  }

  /** A separator in front of a tokenisation of the rest. */
  lemma SepTokenises(s: string, i: nat, rest: seq<(nat, nat)>)
    requires i < |s| && IsSep(s[i])
    requires Tokenises(s, i + 1, rest)
    ensures Tokenises(s, i, rest)
  {
  }

  /** The scan tokenises the line. */
  lemma {:induction false} SpansFromTokenises(s: string, i: nat)
    requires i <= |s|
    ensures Tokenises(s, i, SpansFrom(s, i))
    decreases |s| - i
  {
    if i == |s| {
    } else if Closes(s, i) {
      SpansFromTokenises(s, QuoteScan(s, s[i], i + 1) + 1);
      QuotedTokenises(s, i);
    } else if !IsSep(s[i]) {
      SpansFromTokenises(s, RunEnd(s, i));
      RunTokenises(s, i);
    } else {
      SpansFromTokenises(s, i + 1);
      SepTokenises(s, i, SpansFrom(s, i + 1));
    }
  }

  lemma QuotedTokenises(s: string, i: nat)
    requires i < |s| && Closes(s, i)
    requires Tokenises(s, QuoteScan(s, s[i], i + 1) + 1, SpansFrom(s, QuoteScan(s, s[i], i + 1) + 1))
    ensures Tokenises(s, i, SpansFrom(s, i))
  {
    var e := QuoteScan(s, s[i], i + 1) + 1;
    assert QuotedSpan(s, i, e);
    ConsTokenises(s, i, e, SpansFrom(s, e));
  }

  lemma RunTokenises(s: string, i: nat)
    requires i < |s| && !Closes(s, i) && !IsSep(s[i])
    requires Tokenises(s, RunEnd(s, i), SpansFrom(s, RunEnd(s, i)))
    ensures Tokenises(s, i, SpansFrom(s, i))
  {
    var e := RunEnd(s, i);
    assert RunSpan(s, i, e);
    ConsTokenises(s, i, e, SpansFrom(s, e));
  }

  /** What one token looks like: non-empty, no newline, and either quoted at both
      ends or free of separators. */
  predicate IsToken(t: string)
  {
    |t| > 0 && '\n' !in t
    && ((IsQuote(t[0]) && |t| >= 2 && t[|t| - 1] == t[0])
        || forall p :: 0 <= p < |t| ==> !IsSep(t[p]))
  }

  lemma SpanIsToken(s: string, a: nat, b: nat)
    requires a < b <= |s| && (QuotedSpan(s, a, b) || RunSpan(s, a, b))
    ensures IsToken(s[a..b])
  {
    var t := s[a..b];
    assert forall q :: 0 <= q < |t| ==> t[q] == s[a + q];
    if QuotedSpan(s, a, b) {
      assert t[0] == s[a] && t[|t| - 1] == s[b - 1];
      forall q | 0 <= q < |t| ensures t[q] != '\n' {
        if 0 < q < |t| - 1 {
          assert a < a + q < b - 1;
        } else {
          assert IsQuote(t[q]);
        }
      }
    } else {
      forall q | 0 <= q < |t| ensures !IsSep(t[q]) {
        assert a <= a + q < b;
      }
    }
  }

  /** The tokens at the given spans of `s`. */
  function Slices(s: string, sp: seq<(nat, nat)>): (r: seq<string>)
    requires forall k :: 0 <= k < |sp| ==> sp[k].0 < sp[k].1 <= |s|
    requires forall k :: 0 <= k < |sp| ==> QuotedSpan(s, sp[k].0, sp[k].1) || RunSpan(s, sp[k].0, sp[k].1)
    ensures |r| == |sp|
    ensures forall k :: 0 <= k < |r| ==> r[k] == s[sp[k].0..sp[k].1] && IsToken(r[k])
  {
    if sp == [] then []
    else
      SpanIsToken(s, sp[0].0, sp[0].1);
      [s[sp[0].0..sp[0].1]] + Slices(s, sp[1..])
  }

  /** split (lc3as.py:418-419): the text of each span the scan finds. */
  function Split(line: string): (r: seq<string>)
    ensures forall k :: 0 <= k < |r| ==> IsToken(r[k])
  {
    SpansFromTokenises(line, 0);
    Slices(line, SpansFrom(line, 0))
  }

  // ----- strip -----

  function FirstNonSpace(s: string, i: nat): (k: nat)
    requires i <= |s|
    ensures i <= k <= |s| && (forall p :: i <= p < k ==> IsSpace(s[p]))
    ensures k == |s| || !IsSpace(s[k])
    decreases |s| - i
  {
    if i < |s| && IsSpace(s[i]) then FirstNonSpace(s, i + 1) else i
  }

  function LastNonSpaceEnd(s: string, j: nat): (k: nat)
    requires j <= |s|
    ensures k <= j && (forall p :: k <= p < j ==> IsSpace(s[p]))
    ensures k == 0 || !IsSpace(s[k - 1])
  {
    if j > 0 && IsSpace(s[j - 1]) then LastNonSpaceEnd(s, j - 1) else j
  }

  /** `str.strip()`: the text between the leading and the trailing whitespace. */
  function Strip(s: string): (t: string)
    ensures t == [] <==> forall p :: 0 <= p < |s| ==> IsSpace(s[p])
    ensures t != [] ==> !IsSpace(t[0]) && !IsSpace(t[|t| - 1])
    ensures exists a, b :: 0 <= a <= b <= |s| && t == s[a..b]
              && (forall p :: 0 <= p < a ==> IsSpace(s[p])) && (forall p :: b <= p < |s| ==> IsSpace(s[p]))
  {
    var a := FirstNonSpace(s, 0);
    var b := LastNonSpaceEnd(s, |s|);
    if a < b then s[a..b] else assert s[|s|..|s|] == []; []
  }

  /** A line that is a single word without separators or a leading quote strips
      to itself and splits into that one word. */
  lemma SplitOfWord(w: string)
    requires |w| > 0 && !IsQuote(w[0]) && forall p :: 0 <= p < |w| ==> !IsSep(w[p])
    ensures Strip(w) == w && Split(w) == [w]
  {
    assert RunEnd(w, 0) == |w|;
    assert SpansFrom(w, 0) == [(0, |w|)];
    assert w[0..|w|] == w;
    assert FirstNonSpace(w, 0) == 0;
    assert LastNonSpaceEnd(w, |w|) == |w|;
  }

  // ----- remove_comment -----

  /** `s.find(c)`: the index of the first `c`, or -1. */
  function Find(s: string, c: char): (k: int)
    ensures -1 <= k < |s|
    ensures k >= 0 ==> s[k] == c && c !in s[..k]
    ensures k == -1 ==> c !in s
  {
    if s == [] then -1
    else if s[0] == c then 0
    else
      var k := Find(s[1..], c);
      if k == -1 then -1 else k + 1
  }

  /** The body of remove_comment's loop: `line[:line.find(';')]`. Without a ';' the
      index is -1 and the slice drops the line's last character. */
  function RemoveComment(line: string): (r: string)
    ensures ';' in line ==> |r| < |line| && r == line[..|r|] && line[|r|] == ';' && ';' !in r
    ensures ';' !in line ==> r == line[..if |line| == 0 then 0 else |line| - 1]
  {
    var k := Find(line, ';');
    if k >= 0 then line[..k] else if |line| == 0 then "" else line[..|line| - 1]
  }

  /** The generator remove_comment, consumed in full. */
  method RemoveComments(lines: seq<string>) returns (out: seq<string>)
    ensures |out| == |lines|
    ensures forall k :: 0 <= k < |lines| ==> out[k] == RemoveComment(lines[k])
  {
    out := [];
    for i := 0 to |lines|
      invariant |out| == i
      invariant forall k :: 0 <= k < i ==> out[k] == RemoveComment(lines[k])
    {
      out := out + [RemoveComment(lines[i])];
    }
  }

  /** What remove_comment evidently means to do: keep everything before the first ';'. */
  function RemoveCommentIntended(line: string): (r: string)
    ensures ';' !in r
    ensures |r| <= |line| && r == line[..|r|]
    ensures |r| == |line| || line[|r|] == ';'
  {
    var k := Find(line, ';');
    if k >= 0 then line[..k] else line
  }

  /** The two agree, up to the whitespace `parse` strips, on every line that ends
      in a newline or holds a ';': the slice only goes wrong on a final line. */
  lemma RemoveCommentAgreesOnFullLines(line: string)
    requires ';' in line || (|line| > 0 && line[|line| - 1] == '\n')
    ensures Strip(RemoveComment(line)) == Strip(RemoveCommentIntended(line))
  {
    if ';' !in line {
      var r := RemoveComment(line);
      assert RemoveCommentIntended(line) == r + "\n";
      StripIgnoresTrailingSpace(r, '\n');
    }
  }

  lemma StripIgnoresTrailingSpace(s: string, c: char)
    requires IsSpace(c)
    ensures Strip(s + [c]) == Strip(s)
  {
    var t := s + [c];
    assert LastNonSpaceEnd(t, |t|) == LastNonSpaceEnd(t, |s|);
    LastNonSpaceEndPrefix(s, c, |s|);
    FirstNonSpacePrefix(s, c, 0);
    var a, b := FirstNonSpace(s, 0), LastNonSpaceEnd(s, |s|);
    if a < b {
      assert t[a..b] == s[a..b];
    }
  }

  lemma LastNonSpaceEndPrefix(s: string, c: char, j: nat)
    requires j <= |s|
    ensures LastNonSpaceEnd(s + [c], j) == LastNonSpaceEnd(s, j)
  {
    if j > 0 {
      assert (s + [c])[j - 1] == s[j - 1];
    }
  }

  lemma {:induction false} FirstNonSpacePrefix(s: string, c: char, i: nat)
    requires i <= |s| && IsSpace(c)
    ensures FirstNonSpace(s + [c], i) == (if FirstNonSpace(s, i) == |s| then |s| + 1 else FirstNonSpace(s, i))
    decreases |s| - i
  {
    var t := s + [c];
    if i < |s| {
      assert t[i] == s[i];
      if IsSpace(s[i]) {
        FirstNonSpacePrefix(s, c, i + 1);
      }
    } else {
      assert t[i] == c;
    }
  }
}
