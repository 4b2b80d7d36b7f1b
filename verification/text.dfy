/** The handful of Python `str` operations the relay relies on: `strip`,
    `split` on one separator, `join`, `find`, slicing with possibly
    negative bounds, `endswith` and `splitlines`. */
module Text {

  /** The ASCII characters `str.strip()` removes: space, tab, the line
      and page breaks, and the four information separators, which Python
      counts as whitespace. */
  predicate IsSpace(c: char) {
    c == ' ' || c == '\t' || c == '\n' || c == '\r' || c == '\U{000B}' || c == '\U{000C}'
    || ('\U{001C}' <= c <= '\U{001F}')
  }

  lemma ConcatAssoc<T>(x: seq<T>, y: seq<T>, z: seq<T>)
    ensures x + (y + z) == (x + y) + z
  {
  }

  /** Number of occurrences of `c` in `s`. */
  function CountOf(s: string, c: char): nat {
    if |s| == 0 then 0 else (if s[0] == c then 1 else 0) + CountOf(s[1..], c)
  }

  lemma {:induction false} CountOfZero(s: string, c: char)
    ensures CountOf(s, c) == 0 <==> c !in s
  {
    if |s| > 0 {
      CountOfZero(s[1..], c);
      assert s == [s[0]] + s[1..];
    }
  }

  /** `s.lstrip()` */
  function StripLeft(s: string): (r: string)
    ensures |r| <= |s| && r == s[|s| - |r|..]
    ensures forall k :: 0 <= k < |s| - |r| ==> IsSpace(s[k])
    ensures r == [] || !IsSpace(r[0])
  {
    if |s| > 0 && IsSpace(s[0]) then StripLeft(s[1..]) else s
  }

  /** `s.rstrip()` */
  function StripRight(s: string): (r: string)
    ensures |r| <= |s| && r == s[..|r|]
    ensures forall k :: |r| <= k < |s| ==> IsSpace(s[k])
    ensures r == [] || !IsSpace(r[|r| - 1])
  {
    if |s| > 0 && IsSpace(s[|s| - 1]) then StripRight(s[..|s| - 1]) else s
  }

  /** `s.strip()`: the longest infix of `s` that neither begins nor ends
      with whitespace, everything around it being whitespace. */
  function Strip(s: string): (r: string)
    ensures r == [] || (!IsSpace(r[0]) && !IsSpace(r[|r| - 1]))
    ensures |r| <= |s|
  {
    StripRight(StripLeft(s))
  }

  /** A string with no whitespace at either end is its own `strip()`. */
  lemma StripTrimmed(s: string)
    requires s == [] || (!IsSpace(s[0]) && !IsSpace(s[|s| - 1]))
    ensures Strip(s) == s
  {
    assert StripLeft(s) == s;
  }

  /** `s.split(c)` for a one-character separator: every occurrence of `c`
      separates two fields, so adjacent separators yield empty fields. */
  function Split(s: string, c: char): (r: seq<string>)
    ensures |r| == CountOf(s, c) + 1
    ensures forall i :: 0 <= i < |r| ==> c !in r[i]
    ensures Join(r, c) == s
  {
    if |s| == 0 then [""]
    else
      var rest := Split(s[1..], c);
      if s[0] == c then
        assert Join([""] + rest, c) == [c] + Join(rest, c);
        [""] + rest
      else
        var r := [[s[0]] + rest[0]] + rest[1..];
        assert |rest| == 1 ==> Join(r, c) == [s[0]] + Join(rest, c);
        assert |rest| > 1 ==> Join(r, c) == [s[0]] + Join(rest, c) by {
          if |rest| > 1 {
            assert r[1..] == rest[1..];
          }
        }
        r
  }

  /** `c.join(parts)`; the empty list joins to the empty string. */
  function Join(parts: seq<string>, c: char): string {
    if |parts| == 0 then ""
    else if |parts| == 1 then parts[0]
    else parts[0] + [c] + Join(parts[1..], c)
  }

  /** A character that is neither the separator nor in any part is not in
      the joined text. */
  lemma {:induction false} JoinAvoids(parts: seq<string>, sep: char, c: char)
    requires c != sep && forall i :: 0 <= i < |parts| ==> c !in parts[i]
    ensures c !in Join(parts, sep)
  {
    if |parts| > 1 {
      JoinAvoids(parts[1..], sep, c);
    }
  }

  lemma JoinStartsWith(parts: seq<string>, sep: char)
    requires |parts| >= 1 && parts[0] != []
    ensures Join(parts, sep) != [] && Join(parts, sep)[0] == parts[0][0]
  {
  }

  /** Splitting a text whose first field holds no separator peels that
      field off the front. */
  lemma {:induction false} SplitLeadingField(a: string, b: string, c: char)
    requires c !in a
    ensures Split(a + [c] + b, c) == [a] + Split(b, c)
  {
    if |a| == 0 {
      assert a + [c] + b == [c] + b;
      assert ([c] + b)[1..] == b;
    } else {
      assert (a + [c] + b)[1..] == a[1..] + [c] + b;
      SplitLeadingField(a[1..], b, c);
      assert [a[0]] + a[1..] == a;
    }
  }

  /** Splitting a text without any separator gives that text alone. */
  lemma {:induction false} SplitNoSeparator(a: string, c: char)
    requires c !in a
    ensures Split(a, c) == [a]
  {
    if |a| > 0 {
      SplitNoSeparator(a[1..], c);
      assert [a[0]] + a[1..] == a;
    }
  }

  /** `split` inverts `join` whenever no part holds the separator: the two
      together are a bijection between texts and non-empty field lists. */
  lemma {:induction false} SplitJoin(parts: seq<string>, c: char)
    requires |parts| >= 1
    requires forall i :: 0 <= i < |parts| ==> c !in parts[i]
    ensures Split(Join(parts, c), c) == parts
  {
    if |parts| == 1 {
      SplitNoSeparator(parts[0], c);
    } else {
      SplitJoin(parts[1..], c);
      SplitLeadingField(parts[0], Join(parts[1..], c), c);
      assert [parts[0]] + parts[1..] == parts;
    }
  }

  /** Index of the first `c` in `s`, or -1, as `s.find(c)`. */
  function Find(s: string, c: char): (r: int)
    ensures r == -1 <==> c !in s
    ensures r != -1 ==> 0 <= r < |s| && s[r] == c && c !in s[..r]
  {
    if |s| == 0 then -1
    else if s[0] == c then 0
    else
      var k := Find(s[1..], c);
      assert k != -1 ==> s[..k + 1] == [s[0]] + s[1..][..k];
      if k == -1 then -1 else k + 1
  }

  /** The first field of a split is the text before the first separator. */
  lemma {:induction false} SplitFirstField(s: string, c: char)
    requires c in s
    ensures Split(s, c)[0] == s[..Find(s, c)]
  {
    var k := Find(s, c);
    assert s == s[..k] + [c] + s[k + 1..];
    SplitLeadingField(s[..k], s[k + 1..], c);
  }

  /** Clamps a possibly negative Python slice bound into `0..n`. */
  function SliceBound(n: nat, i: int): (b: nat)
    ensures b <= n
  {
    var j := if i < 0 then n + i else i;
    if j < 0 then 0 else if j > n then n else j
  }

  /** `s[:i]` */
  function SliceTo(s: string, i: int): (r: string)
    ensures 0 <= i <= |s| ==> r == s[..i]
    ensures -|s| <= i < 0 ==> r == s[..|s| + i]
  {
    s[..SliceBound(|s|, i)]
  }

  /** `s[i:]` */
  function SliceFrom(s: string, i: int): (r: string)
    ensures 0 <= i <= |s| ==> r == s[i..]
    ensures -|s| <= i < 0 ==> r == s[|s| + i..]
  {
    s[SliceBound(|s|, i)..]
  }

  /** `s.endswith(suffix)` */
  predicate EndsWith(s: string, suffix: string) {
    |suffix| <= |s| && s[|s| - |suffix|..] == suffix
  }

  /** `s.splitlines()` for `'\n'`-terminated text: the fields between line
      feeds, without the empty field a final line feed leaves behind. */
  function Lines(s: string): (r: seq<string>)
    ensures forall i :: 0 <= i < |r| ==> '\n' !in r[i]
    ensures s == [] ==> r == []
    ensures s != [] && s[|s| - 1] == '\n' ==> Join(r, '\n') + "\n" == s
    ensures s != [] && s[|s| - 1] != '\n' ==> Join(r, '\n') == s
  {
    var fields := Split(s, '\n');
    if fields[|fields| - 1] == "" then
      LinesDropEmpty(fields, s);
      fields[..|fields| - 1]
    else
      JoinEndsWithLast(fields, '\n');
      fields
  }

  lemma {:induction false} JoinSnoc(parts: seq<string>, last: string, c: char)
    requires |parts| >= 1
    ensures Join(parts + [last], c) == Join(parts, c) + [c] + last
  {
    if |parts| == 1 {
      assert (parts + [last])[1..] == [last];
    } else {
      assert (parts + [last])[1..] == parts[1..] + [last];
      JoinSnoc(parts[1..], last, c);
    }
  }

  lemma {:induction false} JoinEndsWithLast(parts: seq<string>, c: char)
    requires |parts| >= 1 && parts[|parts| - 1] != ""
    requires forall i :: 0 <= i < |parts| ==> c !in parts[i]
    ensures Join(parts, c) != [] && Join(parts, c)[|Join(parts, c)| - 1] != c
  {
    var last := parts[|parts| - 1];
    if |parts| > 1 {
      assert parts == parts[..|parts| - 1] + [last];
      JoinSnoc(parts[..|parts| - 1], last, c);
    }
    assert last[|last| - 1] in last;
  }

  lemma LinesDropEmpty(fields: seq<string>, s: string)
    requires fields == Split(s, '\n') && fields[|fields| - 1] == ""
    ensures s == [] ==> fields[..|fields| - 1] == []
    ensures s != [] ==> Join(fields[..|fields| - 1], '\n') + "\n" == s
  {
    if |fields| > 1 {
      assert fields == fields[..|fields| - 1] + [""];
      JoinSnoc(fields[..|fields| - 1], "", '\n');
    }
  }
}
