/**
  The parts of Go's `strings` package that the enumeration relies on:
  `HasPrefix`, `Split` on a one-character separator, and `TrimSpace`
  with the whitespace set of `unicode.IsSpace`.
*/
module GoStrings {

  /** `strings.HasPrefix(s, p)`. */
  predicate HasPrefix(s: string, p: string) {
    |p| <= |s| && s[..|p|] == p
  }

  /** `s` starts with `p` exactly when it is `p` followed by the rest of `s`. */
  lemma HasPrefixCharacterised(s: string, p: string, t: string)
    ensures HasPrefix(p + t, p)
    ensures HasPrefix(s, p) <==> |p| <= |s| && s == p + s[|p|..]
  {
    assert (p + t)[..|p|] == p;
    if |p| <= |s| && s == p + s[|p|..] {
      assert s[..|p|] == (p + s[|p|..])[..|p|];
    }
  }

  /** The inverse of `Split`: the parts glued back together with `sep` between them. */
  function Join(parts: seq<string>, sep: char): string
    requires |parts| >= 1
  {
    if |parts| == 1 then parts[0] else parts[0] + [sep] + Join(parts[1..], sep)
  }

  /**
    `strings.Split(s, string(sep))`: the maximal `sep`-free pieces of `s`, in order.
    It never returns an empty slice; the empty string splits into one empty piece.
  */
  function Split(s: string, sep: char): (parts: seq<string>)
    ensures |parts| >= 1
    ensures forall k :: 0 <= k < |parts| ==> sep !in parts[k]
    ensures Join(parts, sep) == s
    decreases |s|
  {
    if s == [] then [[]]
    else
      var rest := Split(s[1..], sep);
      if s[0] == sep then
        [[]] + rest
      else
        var parts := [[s[0]] + rest[0]] + rest[1..];
        assert parts[1..] == rest[1..];
        assert |rest| > 1 ==> Join(rest, sep) == rest[0] + [sep] + Join(rest[1..], sep);
        assert s == [s[0]] + s[1..];
        parts
  }

  /** The split has more than one part exactly when the separator occurs. */
  lemma SplitMoreThanOne(s: string, sep: char)
    ensures |Split(s, sep)| > 1 <==> sep in s
  {
    var parts := Split(s, sep);
    if |parts| > 1 {
      assert s == parts[0] + [sep] + Join(parts[1..], sep);
      assert s[|parts[0]|] == sep;
    }
  }

  /** Splitting a sep-free head off the front of a string. */
  lemma {:induction false} SplitAfterHead(a: string, t: string, sep: char)
    requires sep !in a
    ensures Split(a + t, sep) == [a + Split(t, sep)[0]] + Split(t, sep)[1..]
    decreases |a|
  {
    if a != [] {
      assert (a + t)[1..] == a[1..] + t;
      assert (a + t)[0] == a[0];
      SplitAfterHead(a[1..], t, sep);
      assert [a[0]] + (a[1..] + Split(t, sep)[0]) == a + Split(t, sep)[0];
    } else {
      var st := Split(t, sep);
      assert a + t == t;
      assert a + st[0] == st[0];
      assert [st[0]] + st[1..] == st;
    }
  }

  /** A string starting with the separator splits into an empty first part and the rest. */
  lemma SplitLeadingSep(b: string, sep: char)
    ensures Split([sep] + b, sep) == [[]] + Split(b, sep)
  {
    var t := [sep] + b;
    assert t[1..] == b && t[0] == sep;
  }

  /** A piece followed by the separator is the first part of the split. */
  lemma SplitCons(a: string, b: string, sep: char)
    requires sep !in a
    ensures Split(a + [sep] + b, sep) == [a] + Split(b, sep)
  {
    var t := [sep] + b;
    assert a + [sep] + b == a + t;
    SplitAfterHead(a, t, sep);
    SplitLeadingSep(b, sep);
    var st := Split(t, sep);
    var sb := Split(b, sep);
    assert st[0] == [] && st[1..] == sb;
    assert a + st[0] == a;
    calc {
      Split(a + [sep] + b, sep);
      Split(a + t, sep);
      [a + st[0]] + st[1..];
      [a] + sb;
    }
  }

  /**
    Round trip: splitting the join of separator-free parts gives the parts back,
    so `Split` and `Join` are mutually inverse on well-formed inputs.
  */
  lemma {:induction false} SplitJoin(parts: seq<string>, sep: char)
    requires |parts| >= 1
    requires forall k :: 0 <= k < |parts| ==> sep !in parts[k]
    ensures Split(Join(parts, sep), sep) == parts
    decreases |parts|
  {
    if |parts| == 1 {
      assert sep !in Join(parts, sep);
    } else {
      SplitJoin(parts[1..], sep);
      SplitCons(parts[0], Join(parts[1..], sep), sep);
      assert [parts[0]] + parts[1..] == parts;
    }
  }

  /** `unicode.IsSpace`: the Unicode White_Space characters. */
  predicate IsSpace(c: char) {
    || c == ' ' || c == '\t' || c == '\n' || c == '\r'
    || c == '\U{000B}' || c == '\U{000C}'
    || c == '\U{0085}' || c == '\U{00A0}' || c == '\U{1680}'
    || ('\U{2000}' <= c <= '\U{200A}')
    || c == '\U{2028}' || c == '\U{2029}' || c == '\U{202F}'
    || c == '\U{205F}' || c == '\U{3000}'
  }

  predicate AllSpace(s: string) {
    forall k :: 0 <= k < |s| ==> IsSpace(s[k])
  }

  /** Neither the first nor the last character is whitespace. */
  predicate NoSurroundingSpace(s: string) {
    s == [] || (!IsSpace(s[0]) && !IsSpace(s[|s| - 1]))
  }

  /** `r` is `s` with a whitespace-only prefix and a whitespace-only suffix cut off. */
  ghost predicate IsTrimmedCore(s: string, r: string) {
    exists i, j :: 0 <= i <= j <= |s| && r == s[i..j] && AllSpace(s[..i]) && AllSpace(s[j..])
  }

  /** Drops the leading whitespace. */
  function TrimLeft(s: string): (r: string)
    ensures |r| <= |s| && r == s[|s| - |r|..]
    ensures AllSpace(s[..|s| - |r|])
    ensures r == [] || !IsSpace(r[0])
    decreases |s|
  {
    if s != [] && IsSpace(s[0]) then TrimLeft(s[1..]) else s
  }

  /** Drops the trailing whitespace. */
  function TrimRight(s: string): (r: string)
    ensures |r| <= |s| && r == s[..|r|]
    ensures AllSpace(s[|r|..])
    ensures r == [] || !IsSpace(r[|r| - 1])
    decreases |s|
  {
    if s != [] && IsSpace(s[|s| - 1]) then
      var t := s[..|s| - 1];
      var r := TrimRight(t);
      assert AllSpace(s[|r|..]) by {
        var u := s[|r|..];
        forall k | 0 <= k < |u| ensures IsSpace(u[k]) {
          if k < |u| - 1 { assert u[k] == t[|r|..][k]; }
        }
      }
      r
    else s
  }

  /**
    `strings.TrimSpace`: a contiguous piece of `s` with only whitespace cut off
    at either end, and no whitespace left at either end.
  */
  function TrimSpace(s: string): (r: string)
    ensures NoSurroundingSpace(r)
    ensures IsTrimmedCore(s, r)
  {
    var l := TrimLeft(s);
    var r := TrimRight(l);
    var i := |s| - |l|;
    assert r == s[i..i + |r|];
    assert s[i + |r|..] == l[|r|..];
    r
  }

  /** Leading whitespace of exactly length `i` is what TrimLeft removes. */
  lemma {:induction false} TrimLeftExact(s: string, i: nat)
    requires i <= |s| && AllSpace(s[..i])
    requires i == |s| || !IsSpace(s[i])
    ensures TrimLeft(s) == s[i..]
    decreases i
  {
    if i > 0 {
      var t := s[1..];
      assert AllSpace(t[..i - 1]) by {
        var u := t[..i - 1];
        forall k | 0 <= k < |u| ensures IsSpace(u[k]) {
          assert u[k] == s[..i][k + 1];
        }
      }
      assert IsSpace(s[..i][0]);
      TrimLeftExact(s[1..], i - 1);
    }
  }

  /** Trailing whitespace starting exactly at `j` is what TrimRight removes. */
  lemma {:induction false} TrimRightExact(s: string, j: nat)
    requires j <= |s| && AllSpace(s[j..])
    requires j == 0 || !IsSpace(s[j - 1])
    ensures TrimRight(s) == s[..j]
    decreases |s| - j
  {
    if j < |s| {
      var t := s[..|s| - 1];
      assert IsSpace(s[j..][|s| - 1 - j]);
      assert AllSpace(t[j..]) by {
        var u := t[j..];
        forall k | 0 <= k < |u| ensures IsSpace(u[k]) {
          assert u[k] == s[j..][k];
        }
      }
      TrimRightExact(t, j);
      assert t[..j] == s[..j];
    }
  }

  /** A string that is whitespace up to `i` and from `i` on trims to nothing. */
  lemma TrimSpaceAllSpace(s: string, i: nat)
    requires i <= |s| && AllSpace(s[..i]) && AllSpace(s[i..])
    ensures TrimSpace(s) == []
  {
    assert AllSpace(s) by {
      forall k | 0 <= k < |s| ensures IsSpace(s[k]) {
        if k < i { assert s[k] == s[..i][k]; } else { assert s[k] == s[i..][k - i]; }
      }
    }
    assert s[..|s|] == s;
    TrimLeftExact(s, |s|);
  }

  /** Cutting whitespace at offsets `i` and `j` that leave none at the ends is TrimSpace. */
  lemma TrimSpaceAt(s: string, i: nat, j: nat)
    requires i < j <= |s| && AllSpace(s[..i]) && AllSpace(s[j..])
    requires !IsSpace(s[i]) && !IsSpace(s[j - 1])
    ensures TrimSpace(s) == s[i..j]
  {
    var l := s[i..];
    TrimLeftExact(s, i);
    assert TrimLeft(s) == l;
    assert l[j - i..] == s[j..];
    assert l[j - i - 1] == s[j - 1];
    TrimRightExact(l, j - i);
    assert l[..j - i] == s[i..j];
    assert TrimRight(l) == s[i..j];
  }

  /**
    TrimSpace is the only trim: any core of `s` obtained by cutting whitespace
    from both ends and left with no whitespace at either end is TrimSpace(s).
  */
  lemma TrimSpaceUnique(s: string, r: string)
    requires NoSurroundingSpace(r) && IsTrimmedCore(s, r)
    ensures TrimSpace(s) == r
  {
    var i, j :| 0 <= i <= j <= |s| && r == s[i..j] && AllSpace(s[..i]) && AllSpace(s[j..]);
    if i == j {
      TrimSpaceAllSpace(s, i);
    } else {
      assert r[0] == s[i] && r[|r| - 1] == s[j - 1];
      TrimSpaceAt(s, i, j);
    }
  }

  /** Text with no surrounding whitespace is returned unchanged. */
  lemma TrimSpaceKeepsTrimmed(s: string)
    requires NoSurroundingSpace(s)
    ensures TrimSpace(s) == s
  {
    assert s[0..|s|] == s && s[..0] == [] && s[|s|..] == [];
    TrimSpaceUnique(s, s);
  }

  /** Trimming twice is trimming once. */
  lemma TrimSpaceIdempotent(s: string)
    ensures TrimSpace(TrimSpace(s)) == TrimSpace(s)
  {
    TrimSpaceKeepsTrimmed(TrimSpace(s));
  }
}
