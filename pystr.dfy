/**
 * The Python `str` operations the downloader relies on, over `seq<char>`:
 * `find`, `split` with a non-empty separator, `join`, `replace(pat, "")`,
 * `int(...)` on plain decimal text and `str(n)` / f-string rendering of an int.
 */
module PyStr {
  import opened Wrappers

  /** `pat` occurs in `s` starting at index `i`. */
  predicate OccursAt(s: string, pat: string, i: int) {
    0 <= i && i + |pat| <= |s| && s[i..i + |pat|] == pat
  }

  lemma OccursAtTail(s: string, pat: string, j: int)
    requires |s| > 0 && 1 <= j
    ensures OccursAt(s, pat, j) <==> OccursAt(s[1..], pat, j - 1)
  {
    if j + |pat| <= |s| {
      assert s[1..][j - 1..j - 1 + |pat|] == s[j..j + |pat|];
    }
  }

  /** `s.find(pat)`: the index of the first occurrence of `pat` in `s`, or -1. */
  function Find(s: string, pat: string): (r: int)
    ensures -1 <= r <= |s|
    ensures r >= 0 ==> OccursAt(s, pat, r)
    ensures forall i :: 0 <= i < (if r < 0 then |s| + 1 else r) ==> !OccursAt(s, pat, i)
    decreases |s|
  {
    if |s| < |pat| then -1
    else if s[..|pat|] == pat then 0
    else
      var k := Find(s[1..], pat);
      assert forall j :: 1 <= j ==> (OccursAt(s, pat, j) <==> OccursAt(s[1..], pat, j - 1)) by {
        forall j | 1 <= j { OccursAtTail(s, pat, j); }
      }
      assert !OccursAt(s, pat, 0);
      if k < 0 then -1 else k + 1
  }

  /** `pat in s`. */
  predicate Contains(s: string, pat: string) {
    Find(s, pat) >= 0
  }

  lemma ContainsChar(s: string, c: char)
    ensures Contains(s, [c]) <==> c in s
  {
    if c in s {
      var i :| 0 <= i < |s| && s[i] == c;
      assert s[i..i + 1] == [c];
      assert OccursAt(s, [c], i);
    }
    var r := Find(s, [c]);
    if r >= 0 {
      assert s[r..r + 1][0] == s[r];
    }
  }

  /** `s.split(sep)` for a non-empty separator: the pieces between the non-overlapping occurrences of `sep`, found left to right. */
  function Split(s: string, sep: string): (r: seq<string>)
    requires sep != []
    ensures |r| >= 1
    decreases |s|
  {
    var i := Find(s, sep);
    if i < 0 then [s] else [s[..i]] + Split(s[i + |sep|..], sep)
  }

  /** `sep.join(parts)`. */
  function Join(parts: seq<string>, sep: string): string
  {
    if |parts| == 0 then ""
    else if |parts| == 1 then parts[0]
    else parts[0] + sep + Join(parts[1..], sep)
  }

  /** One step of `split`: the piece before the first occurrence, then the split of what follows it. */
  lemma SplitStep(s: string, sep: string)
    requires sep != [] && Find(s, sep) >= 0
    ensures Split(s, sep) == [s[..Find(s, sep)]] + Split(s[Find(s, sep) + |sep|..], sep)
  {
  }

  lemma JoinCons(h: string, tail: seq<string>, sep: string)
    requires tail != []
    ensures Join([h] + tail, sep) == h + sep + Join(tail, sep)
  {
    assert ([h] + tail)[0] == h && ([h] + tail)[1..] == tail;
  }

  lemma SliceAround<T>(s: seq<T>, i: int, j: int)
    requires 0 <= i <= j <= |s|
    ensures s == s[..i] + s[i..j] + s[j..]
  {
  }

  /** Splitting and joining again with the same separator gives back the original text. */
  lemma {:induction false} JoinSplit(s: string, sep: string)
    requires sep != []
    ensures Join(Split(s, sep), sep) == s
    decreases |s|
  {
    var i := Find(s, sep);
    if i >= 0 {
      var rest := s[i + |sep|..];
      var tail := Split(rest, sep);
      JoinSplit(rest, sep);
      SplitStep(s, sep);
      JoinCons(s[..i], tail, sep);
      SliceAround(s, i, i + |sep|);
    }
  }

  /** No piece of a split contains the separator. */
  lemma {:induction false} SplitPiecesFree(s: string, sep: string)
    requires sep != []
    ensures forall k :: 0 <= k < |Split(s, sep)| ==> !Contains(Split(s, sep)[k], sep)
    decreases |s|
  {
    var i := Find(s, sep);
    if i >= 0 {
      var head := s[..i];
      forall j | 0 <= j <= |head| ensures !OccursAt(head, sep, j) {
        if OccursAt(head, sep, j) {
          assert head[j..j + |sep|] == s[j..j + |sep|];
          assert OccursAt(s, sep, j);
        }
      }
      SplitPiecesFree(s[i + |sep|..], sep);
      assert Split(s, sep) == [head] + Split(s[i + |sep|..], sep);
    }
  }

  /** The first character of `pat` occurs nowhere else in it, so two occurrences of `pat` never overlap. */
  predicate HeadUnique(pat: string) {
    pat != [] && forall k :: 0 < k < |pat| ==> pat[k] != pat[0]
  }

  /** When `t` does not contain `pat`, the first occurrence of `pat` in `t + pat + u` is the one right after `t`. */
  lemma FindAfterFree(t: string, pat: string, u: string)
    requires HeadUnique(pat) && !Contains(t, pat)
    ensures Find(t + pat + u, pat) == |t|
  {
    var s := t + pat + u;
    assert s[|t|..|t| + |pat|] == pat;
    assert OccursAt(s, pat, |t|);
    forall j | 0 <= j < |t| ensures !OccursAt(s, pat, j) {
      if j + |pat| <= |t| {
        assert t[j..j + |pat|] == s[j..j + |pat|];
        assert !OccursAt(t, pat, j);
      } else {
        var k := |t| - j;
        assert s[j + k] == pat[0];
        assert pat[k] != pat[0];
        assert s[j..j + |pat|][k] != pat[k];
      }
    }
  }

  /** Text that lacks the first character of `pat` does not contain `pat`. */
  lemma NotContainsWithoutHead(s: string, pat: string)
    requires pat != [] && pat[0] !in s
    ensures !Contains(s, pat)
  {
    forall i | 0 <= i <= |s| ensures !OccursAt(s, pat, i) {
      if i + |pat| <= |s| {
        assert s[i..i + |pat|][0] == s[i];
        assert s[i] in s;
      }
    }
  }

  /** `s.split(sep)` of text that does not contain `sep` is `[s]`. */
  lemma SplitFree(s: string, sep: string)
    requires sep != [] && !Contains(s, sep)
    ensures Split(s, sep) == [s]
  {
  }

  /** `t + sep + u` with neither part containing `sep` splits into exactly `[t, u]`. */
  lemma SplitTwo(t: string, sep: string, u: string)
    requires HeadUnique(sep) && !Contains(t, sep) && !Contains(u, sep)
    ensures Split(t + sep + u, sep) == [t, u]
  {
    var s := t + sep + u;
    FindAfterFree(t, sep, u);
    assert s[..|t|] == t;
    assert s[|t| + |sep|..] == u;
  }

  /** `s.replace(pat, "")` for a non-empty `pat`: every non-overlapping occurrence of `pat`, found left to right, removed. */
  function RemoveAll(s: string, pat: string): (r: string)
    requires pat != []
    ensures !Contains(s, pat) ==> r == s
  {
    Join(Split(s, pat), "")
  }

  /** Removing from `t + pat + u`, where `t` holds no occurrence: `t` is kept and `pat` dropped. */
  lemma RemoveAllAfterFree(t: string, pat: string, u: string)
    requires HeadUnique(pat) && !Contains(t, pat)
    ensures RemoveAll(t + pat + u, pat) == t + RemoveAll(u, pat)
  {
    var s := t + pat + u;
    FindAfterFree(t, pat, u);
    assert s[..|t|] == t;
    assert s[|t| + |pat|..] == u;
    var tail := Split(u, pat);
    assert Split(s, pat) == [t] + tail;
    JoinCons(t, tail, "");
    assert t + "" == t;
  }

  /** Removing from `pat + u`: the leading occurrence is dropped, whatever `pat` looks like. */
  lemma RemoveAllPrefix(pat: string, u: string)
    requires pat != []
    ensures RemoveAll(pat + u, pat) == RemoveAll(u, pat)
  {
    var s := pat + u;
    assert s[..|pat|] == pat;
    assert s[|pat|..] == u;
    var tail := Split(u, pat);
    assert Split(s, pat) == [""] + tail;
    JoinCons("", tail, "");
    assert "" + "" + Join(tail, "") == Join(tail, "");
  }

  /** Removing every dot from a dot followed by dot-free text leaves that text. */
  lemma RemoveLeadingDot(ext: string)
    ensures '.' !in ext ==> RemoveAll("." + ext, ".") == ext
  {
    RemoveAllPrefix(".", ext);
    if '.' !in ext {
      NotContainsWithoutHead(ext, ".");
    }
  }

  /** Total length of a sequence of strings. */
  function TotalLength(parts: seq<string>): nat
  {
    if parts == [] then 0 else |parts[0]| + TotalLength(parts[1..])
  }

  lemma {:induction false} JoinLength(parts: seq<string>, sep: string)
    requires parts != []
    ensures |Join(parts, sep)| == TotalLength(parts) + |sep| * (|parts| - 1)
  {
    if |parts| > 1 {
      JoinLength(parts[1..], sep);
    }
  }

  lemma {:induction false} JoinEmptyLength(parts: seq<string>)
    ensures |Join(parts, "")| == TotalLength(parts)
  {
    if |parts| > 1 {
      JoinEmptyLength(parts[1..]);
    }
  }

  /** `s.replace(pat, "")` shortens `s` by `|pat|` for each occurrence it removes, and it removes `s.count(pat)` of them. */
  lemma RemoveAllLength(s: string, pat: string)
    requires pat != []
    ensures |RemoveAll(s, pat)| == |s| - |pat| * (|Split(s, pat)| - 1)
  {
    var parts := Split(s, pat);
    var removed := Join(parts, "");
    assert RemoveAll(s, pat) == removed;
    JoinSplit(s, pat);
    JoinLength(parts, pat);
    JoinEmptyLength(parts);
    var m := |pat| * (|parts| - 1);
    assert |s| == TotalLength(parts) + m;
    assert |removed| == TotalLength(parts);
  }

  // ---- int(...) and str(n) -------------------------------------------------

  predicate IsDigit(c: char) {
    '0' <= c <= '9'
  }

  predicate AllDigits(s: string) {
    forall i :: 0 <= i < |s| ==> IsDigit(s[i])
  }

  /** The value of a run of decimal digits. */
  function DigitsValue(s: string): nat
    requires AllDigits(s)
    decreases |s|
  {
    if s == [] then 0 else 10 * DigitsValue(s[..|s| - 1]) + ((s[|s| - 1] as int) - ('0' as int))
  }

  /** The decimal digits of a natural number, most significant first, as `str(n)` writes them. */
  function NatString(n: nat): (r: string)
    ensures r != [] && AllDigits(r)
  {
    var d := (('0' as int) + n % 10) as char;
    if n < 10 then [d] else NatString(n / 10) + [d]
  }

  /** `str(n)`, also what an f-string writes for an int. */
  function IntString(n: int): (r: string)
    ensures r != [] && (r[0] == '-' || IsDigit(r[0]))
  {
    if n < 0 then "-" + NatString(-n) else NatString(n)
  }

  /** `int(s)` on the plain forms it accepts: an optional sign followed by decimal digits; None where Python raises. */
  function ParseInt(s: string): (r: Option<int>)
  {
    if |s| > 1 && (s[0] == '-' || s[0] == '+') && AllDigits(s[1..]) then
      var v: int := DigitsValue(s[1..]);
      Some(if s[0] == '-' then -v else v)
    else if |s| > 0 && AllDigits(s) then Some(DigitsValue(s))
    else None
  }

  lemma {:induction false} NatStringValue(n: nat)
    ensures DigitsValue(NatString(n)) == n
  {
    if n >= 10 {
      NatStringValue(n / 10);
      var s := NatString(n);
      assert s[..|s| - 1] == NatString(n / 10);
    }
  }

  /** `int(str(n)) == n`. */
  lemma ParseIntString(n: int)
    ensures ParseInt(IntString(n)) == Some(n)
  {
    var s := IntString(n);
    if n < 0 {
      NatStringValue(-n);
      assert s[0] == '-' && |s| > 1;
      assert s[1..] == NatString(-n);
    } else {
      NatStringValue(n);
      assert IsDigit(s[0]);
    }
  }

  /** Digits never contain a colon, a slash or a dot. */
  lemma NatStringHasNo(n: nat, c: char)
    requires !IsDigit(c)
    ensures c !in NatString(n)
  {
  }
}
