/**
 * The string operations the indexer and the query engine use: Python slicing
 * with clamped bounds, `str.count('\n')`, `str.strip()`, and `'::' in s`,
 * `s.split('::')` and `'::'.join(parts)`.
 */
module Text {
  import opened Options

  /** `text[lo:hi]` in Python: both bounds are clamped to the length, and the slice is
      empty when the clamped `lo` is not below the clamped `hi`. */
  function Slice(text: string, lo: nat, hi: nat): (r: string)
    ensures |r| <= |text|
    ensures lo <= hi <= |text| ==> r == text[lo..hi]
    ensures hi <= lo ==> r == []
    ensures lo <= |text| <= hi ==> r == text[lo..]
    ensures |text| <= lo ==> r == []
  {
    var l := if lo < |text| then lo else |text|;
    var h := if hi < |text| then hi else |text|;
    if l < h then text[l..h] else []
  }

  /** `s.count('\n')`. */
  function CountNewlines(s: string): (n: nat)
    ensures n <= |s|
  {
    if s == [] then 0
    else CountNewlines(s[..|s| - 1]) + (if s[|s| - 1] == '\n' then 1 else 0)
  }

  lemma {:induction false} CountNewlinesAppend(a: string, b: string)
    ensures CountNewlines(a + b) == CountNewlines(a) + CountNewlines(b)
    decreases |b|
  {
    if b == [] {
      assert a + b == a;
    } else {
      assert (a + b)[..|a + b| - 1] == a + b[..|b| - 1];
      CountNewlinesAppend(a, b[..|b| - 1]);
    }
  }

  /** The 1-based line of byte `offset`: `text[:offset].count('\n') + 1`. */
  function LineAt(text: string, offset: nat): (line: nat)
    ensures 1 <= line <= offset + 1
    ensures line <= |text| + 1
  {
    CountNewlines(Slice(text, 0, offset)) + 1
  }

  /** A later offset is never on an earlier line. */
  lemma LineAtMonotone(text: string, a: nat, b: nat)
    ensures a <= b ==> LineAt(text, a) <= LineAt(text, b)
  {
    if a <= b {
      var a' := if a < |text| then a else |text|;
      var b' := if b < |text| then b else |text|;
      assert Slice(text, 0, a) == text[..a'];
      assert Slice(text, 0, b) == text[..b'];
      assert text[..b'] == text[..a'] + text[a'..b'];
      CountNewlinesAppend(text[..a'], text[a'..b']);
    }
  }

  /** Python's `str.isspace()` for one character. */
  predicate IsSpace(c: char)
  {
    || '\U{0009}' <= c <= '\U{000D}'
    || '\U{001C}' <= c <= '\U{0020}'
    || c == '\U{0085}' || c == '\U{00A0}' || c == '\U{1680}'
    || '\U{2000}' <= c <= '\U{200A}'
    || c == '\U{2028}' || c == '\U{2029}' || c == '\U{202F}' || c == '\U{205F}'
    || c == '\U{3000}'
  }

  /** The number of whitespace characters `s.lstrip()` drops. */
  function LeadingSpaces(s: string): (k: nat)
    ensures k <= |s|
    ensures forall i :: 0 <= i < k ==> IsSpace(s[i])
    ensures k == |s| || !IsSpace(s[k])
  {
    if s != [] && IsSpace(s[0]) then 1 + LeadingSpaces(s[1..]) else 0
  }

  /** `s.rstrip()`: drops the trailing whitespace. */
  function TrimEnd(s: string): (r: string)
    ensures |r| <= |s| && r == s[..|r|]
    ensures r == [] || !IsSpace(r[|r| - 1])
    ensures forall i :: |r| <= i < |s| ==> IsSpace(s[i])
  {
    if s != [] && IsSpace(s[|s| - 1]) then TrimEnd(s[..|s| - 1]) else s
  }

  /** `s.strip()`: the part of `s` after its leading whitespace, with the trailing
      whitespace cut off too; it neither starts nor ends with whitespace. */
  function Strip(s: string): (r: string)
    ensures r == [] || (!IsSpace(r[0]) && !IsSpace(r[|r| - 1]))
    ensures LeadingSpaces(s) + |r| <= |s|
    ensures r == s[LeadingSpaces(s)..LeadingSpaces(s) + |r|]
    ensures forall i :: LeadingSpaces(s) + |r| <= i < |s| ==> IsSpace(s[i])
  {
    var k := LeadingSpaces(s);
    var r := TrimEnd(s[k..]);
    assert r == s[k..k + |r|] by {
      assert r == s[k..][..|r|];
    }
    r
  }

  // ----- the `::` separator -----

  /** A `::` starts at index `i` of `s`. */
  predicate SepAt(s: string, i: int)
  {
    0 <= i && i + 1 < |s| && s[i] == ':' && s[i + 1] == ':'
  }

  /** `'::' in s`. */
  predicate HasSep(s: string)
  {
    exists i | 0 <= i < |s| :: SepAt(s, i)
  }

  /** The index of the leftmost `::` at or after `k`. */
  function FirstSepFrom(s: string, k: nat): (r: Option<nat>)
    requires k <= |s|
    ensures r.Some? ==> k <= r.value && SepAt(s, r.value)
    ensures r.Some? ==> forall j :: k <= j < r.value ==> !SepAt(s, j)
    ensures r.None? ==> forall j :: k <= j < |s| ==> !SepAt(s, j)
    decreases |s| - k
  {
    if k + 1 >= |s| then None
    else if SepAt(s, k) then Some(k)
    else FirstSepFrom(s, k + 1)
  }

  /** The index of the leftmost `::` in `s`, as `str.find('::')` yields it. */
  function FirstSep(s: string): (r: Option<nat>)
    ensures r.Some? ==> SepAt(s, r.value) && forall j :: 0 <= j < r.value ==> !SepAt(s, j)
    ensures r.None? <==> !HasSep(s)
  {
    FirstSepFrom(s, 0)
  }

  /** `s.split('::')`: the pieces between the separators found left to right; each
      cut is at the leftmost `::` of what remains. */
  function Split(s: string): (parts: seq<string>)
    ensures |parts| >= 1
    ensures |parts| >= 2 <==> HasSep(s)
    ensures !HasSep(parts[|parts| - 1])
    decreases |s|
  {
    match FirstSep(s)
    case None => [s]
    case Some(i) => [s[..i]] + Split(s[i + 2..])
  }

  /** `'::'.join(parts)`. */
  function Join(parts: seq<string>): string
  {
    if parts == [] then []
    else if |parts| == 1 then parts[0]
    else parts[0] + "::" + Join(parts[1..])
  }

  /** Joining the pieces of a split gives back the string. */
  lemma {:induction false} JoinSplit(s: string)
    ensures Join(Split(s)) == s
    decreases |s|
  {
    match FirstSep(s)
    case None =>
    case Some(i) =>
      var rest := s[i + 2..];
      var parts := Split(s);
      assert parts == [s[..i]] + Split(rest);
      JoinSplit(rest);
      assert parts[0] == s[..i] && parts[1..] == Split(rest);
      assert Join(parts) == s[..i] + "::" + rest;
      assert s == s[..i] + "::" + rest by {
        assert s[i] == ':' && s[i + 1] == ':';
      }
  }

  /** Joining all pieces but the last, then appending `::` and the last piece, joins them all. */
  lemma {:induction false} JoinSnoc(parts: seq<string>)
    requires |parts| >= 2
    ensures Join(parts[..|parts| - 1]) + "::" + parts[|parts| - 1] == Join(parts)
  {
    if |parts| == 2 {
      assert parts[..1] == [parts[0]];
    } else {
      JoinSnoc(parts[1..]);
      assert parts[1..][..|parts| - 2] == parts[..|parts| - 1][1..];
      assert parts[..|parts| - 1][0] == parts[0];
    }
  }

  /** The pieces of a split before the last one, joined again, followed by `::` and
      the last piece give back the string; with two pieces the first is the join. */
  lemma SplitLastPiece(s: string)
    requires |Split(s)| >= 2
    ensures var parts := Split(s);
            && Join(parts[..|parts| - 1]) + "::" + parts[|parts| - 1] == s
            && (|parts| == 2 ==> Join(parts[..1]) == parts[0])
  {
    var parts := Split(s);
    assert Join(parts[..|parts| - 1]) + "::" + parts[|parts| - 1] == s by {
      JoinSplit(s);
      JoinSnoc(parts);
    }
    if |parts| == 2 {
      assert parts[..1] == [parts[0]];
    }
  }

  /** In a run of three colons the leftmost two are the separator. */
  lemma SplitLeftmost()
    ensures Split("a:::b") == ["a", ":b"]
  {
    var s := "a:::b";
    assert SepAt(s, 1) && !SepAt(s, 0);
    FirstSepIs(s, 1);
    var rest := s[3..];
    assert rest == ":b";
    assert !SepAt(rest, 0);
    assert FirstSep(rest) == None;
    assert s[..1] == "a";
  }

  /** A string with no colon at all. */
  predicate NoColon(s: string)
  {
    forall i :: 0 <= i < |s| ==> s[i] != ':'
  }

  /** A string with no colon has no `::`. */
  lemma NoColonNoSep(n: string)
    requires NoColon(n)
    ensures !HasSep(n)
  {
    forall i | 0 <= i < |n| ensures !SepAt(n, i) {
      assert n[i] != ':';
    }
  }

  /** The leftmost `::` is where one starts with none before it. */
  lemma FirstSepIs(s: string, i: nat)
    requires SepAt(s, i)
    requires forall j :: 0 <= j < i ==> !SepAt(s, j)
    ensures FirstSep(s) == Some(i)
  {
  }

  /** Before the last character of `p`, `p + t` has a `::` exactly where `p` has one. */
  lemma SepInPrefix(p: string, t: string, j: nat)
    requires j + 1 < |p|
    ensures SepAt(p + t, j) <==> SepAt(p, j)
  {
    assert (p + t)[j] == p[j] && (p + t)[j + 1] == p[j + 1];
  }

  /** After a prefix that does not end in a colon, the leftmost `::` of
      `p + "::" + n` is the leftmost one of `p`, or the appended one. */
  lemma FirstSepAppend(p: string, n: string)
    requires p == [] || p[|p| - 1] != ':'
    ensures FirstSep(p + "::" + n) == if FirstSep(p).Some? then FirstSep(p) else Some(|p|)
  {
    var t := "::" + n;
    var s := p + t;
    assert s == p + "::" + n;
    match FirstSep(p)
    case None =>
      forall j | 0 <= j < |p| ensures !SepAt(s, j) {
        if j + 1 < |p| {
          SepInPrefix(p, t, j);
        }
      }
      assert SepAt(s, |p|);
      FirstSepIs(s, |p|);
    case Some(i) =>
      forall j | 0 <= j < i ensures !SepAt(s, j) {
        SepInPrefix(p, t, j);
      }
      SepInPrefix(p, t, i);
      FirstSepIs(s, i);
  }

  /** `Split` cuts at the leftmost `::`. */
  lemma SplitAt(s: string, i: nat)
    requires FirstSep(s) == Some(i)
    ensures Split(s) == [s[..i]] + Split(s[i + 2..])
  {
  }

  /** The pieces of `p + "::" + n` around a cut inside `p`. */
  lemma SlicesInside(p: string, n: string, i: nat)
    requires i + 2 <= |p|
    ensures (p + "::" + n)[..i] == p[..i]
    ensures (p + "::" + n)[i + 2..] == p[i + 2..] + "::" + n
  {
  }

  /** The pieces of `p + "::" + n` around the appended `::`. */
  lemma SlicesAtEnd(p: string, n: string)
    ensures (p + "::" + n)[..|p|] == p
    ensures (p + "::" + n)[|p| + 2..] == n
  {
  }

  /** Appending `::` and a colon-free name to a prefix that does not end in a colon
      adds exactly that name as one more piece of the split. */
  lemma {:induction false} SplitAppendName(p: string, n: string)
    requires NoColon(n)
    requires p == [] || p[|p| - 1] != ':'
    ensures Split(p + "::" + n) == Split(p) + [n]
    decreases |p|
  {
    var s := p + "::" + n;
    NoColonNoSep(n);
    FirstSepAppend(p, n);
    if FirstSep(p).None? {
      SplitAt(s, |p|);
      SlicesAtEnd(p, n);
    } else {
      var i := FirstSep(p).value;
      var rest := p[i + 2..];
      SlicesInside(p, n, i);
      assert rest == [] || rest[|rest| - 1] != ':';
      SplitAppendName(rest, n);
      SplitAt(s, i);
      SplitAt(p, i);
    }
  }
}
