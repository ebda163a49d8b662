/**
 * The few Python `str` operations the player relies on, with the meaning
 * Python gives them: `find`, `in`, `replace`, `split(c)`, `split(sep, 1)`
 * unpacked into two names, and `strip`.
 */
module Text {
  import opened Wrappers

  /** `p` occurs in `s` starting at index `i`. */
  predicate OccursAt(s: string, p: string, i: int)
  {
    0 <= i && i + |p| <= |s| && s[i..i + |p|] == p
  }

  /** `s.find(p, k)`: the first occurrence at or after `k`, or -1. */
  function FindFrom(s: string, p: string, k: nat): (r: int)
    ensures r == -1 || (k <= r && OccursAt(s, p, r))
    ensures forall j :: k <= j && (r == -1 || j < r) ==> !OccursAt(s, p, j)
    decreases |s| - k
  {
    if k + |p| > |s| then -1
    else if s[k..k + |p|] == p then k
    else FindFrom(s, p, k + 1)
  }

  /** `s.find(p)`: the index of the first occurrence of `p` in `s`, or -1. */
  function Find(s: string, p: string): (r: int)
    ensures r == -1 || OccursAt(s, p, r)
    ensures forall j :: 0 <= j && (r == -1 || j < r) ==> !OccursAt(s, p, j)
  {
    FindFrom(s, p, 0)
  }

  /** `p in s`, written in the source as `s.find(p) != -1`. */
  predicate Contains(s: string, p: string)
  {
    Find(s, p) != -1
  }

  /** A string occurs at the start of anything it begins. */
  lemma OccursAtStart(p: string, rest: string)
    ensures OccursAt(p + rest, p, 0)
  {
    assert (p + rest)[..|p|] == p;
  }

  lemma ContainsAt(s: string, p: string, i: int)
    requires OccursAt(s, p, i)
    ensures Contains(s, p)
  {
  }

  /**
   * `s.replace(p, q)`: every non-overlapping occurrence of `p`, scanning
   * from the left, is replaced by `q`.
   */
  function ReplaceAll(s: string, p: string, q: string): (r: string)
    requires |p| > 0
    ensures !Contains(s, p) ==> r == s
    ensures Contains(s, p) ==>
      var i := Find(s, p);
      i + |q| <= |r| && r[..i] == s[..i] && r[i..i + |q|] == q
    decreases |s|
  {
    var i := Find(s, p);
    if i < 0 then s
    else s[..i] + (q + ReplaceAll(s[i + |p|..], p, q))
  }

  /** Replacing a pattern by itself changes nothing. */
  lemma {:induction false} ReplaceBySelf(s: string, p: string)
    requires |p| > 0
    ensures ReplaceAll(s, p, p) == s
    decreases |s|
  {
    var i := Find(s, p);
    if i >= 0 {
      var tail := s[i + |p|..];
      ReplaceBySelf(tail, p);
      assert s[i..i + |p|] == p;
      Reassemble(s, i, i + |p|);
    }
  }

  /**
   * `replace` as a left-to-right scan: where `p` starts, emit `q` and skip
   * past the occurrence; elsewhere copy one character and move on.
   */
  function Replaced(s: string, p: string, q: string): string
    requires |p| > 0
    decreases |s|
  {
    if |s| == 0 then []
    else if OccursAt(s, p, 0) then q + Replaced(s[|p|..], p, q)
    else [s[0]] + Replaced(s[1..], p, q)
  }

  /** A prefix of `s` holding no occurrence of `p` is copied unchanged by the scan. */
  lemma {:induction false} ScanCopies(s: string, p: string, q: string, i: nat)
    requires |p| > 0 && i <= |s|
    requires forall m :: 0 <= m < i ==> !OccursAt(s, p, m)
    ensures Replaced(s, p, q) == s[..i] + Replaced(s[i..], p, q)
    decreases i
  {
    if i > 0 {
      var t := s[1..];
      assert !OccursAt(s, p, 0);
      assert Replaced(s, p, q) == [s[0]] + Replaced(t, p, q);
      forall m | 0 <= m < i - 1
        ensures !OccursAt(t, p, m)
      {
        OccursInSuffix(s, p, 1, m);
      }
      ScanCopies(t, p, q, i - 1);
      assert t[i - 1..] == s[i..];
      assert [s[0]] + t[..i - 1] == s[..i];
    }
  }

  /** `p` occurs in the suffix `s[k..]` at `j` exactly when it occurs in `s` at `k + j`. */
  lemma OccursInSuffix(s: string, p: string, k: nat, j: nat)
    requires k <= |s|
    ensures OccursAt(s[k..], p, j) <==> OccursAt(s, p, k + j)
  {
    if k + j + |p| <= |s| {
      assert s[k..][j..j + |p|] == s[k + j..k + j + |p|];
    }
  }

  /** An occurrence that fits inside the prefix `s[..k]` is an occurrence in `s`, and back. */
  lemma OccursInPrefix(s: string, p: string, k: nat, j: nat)
    requires j + |p| <= k <= |s|
    ensures OccursAt(s[..k], p, j) <==> OccursAt(s, p, j)
  {
    assert s[..k][j..j + |p|] == s[j..j + |p|];
  }

  /**
   * `ReplaceAll` replaces every occurrence that the left-to-right scan
   * meets, not only the first one.
   */
  lemma {:induction false} ReplaceAllIsScan(s: string, p: string, q: string)
    requires |p| > 0
    ensures ReplaceAll(s, p, q) == Replaced(s, p, q)
    decreases |s|
  {
    var i := Find(s, p);
    if i == -1 {
      ScanCopies(s, p, q, |s|);
      assert s[..|s|] == s && s[|s|..] == [];
    } else {
      var j := i + |p|;
      ScanCopies(s, p, q, i);
      assert Replaced(s[i..], p, q) == q + Replaced(s[j..], p, q) by {
        OccursInSuffix(s, p, i, 0);
        assert s[i..][|p|..] == s[j..];
      }
      ReplaceAllIsScan(s[j..], p, q);
      ReplaceAllAtFirst(s, p, q);
      calc {
        ReplaceAll(s, p, q);
        s[..i] + (q + ReplaceAll(s[j..], p, q));
        s[..i] + (q + Replaced(s[j..], p, q));
        s[..i] + Replaced(s[i..], p, q);
        Replaced(s, p, q);
      }
    }
  }

  /** One step of `ReplaceAll`: the first occurrence is replaced, then the rest. */
  lemma ReplaceAllAtFirst(s: string, p: string, q: string)
    requires |p| > 0 && Contains(s, p)
    ensures var i := Find(s, p);
      ReplaceAll(s, p, q) == s[..i] + (q + ReplaceAll(s[i + |p|..], p, q))
  {
  }

  /** Three consecutive slices of a string make up the string. */
  lemma Reassemble(s: string, i: nat, j: nat)
    requires i <= j <= |s|
    ensures s[..i] + s[i..j] + s[j..] == s
  {
  }

  /** `s.split(c)` for a one-character separator: always at least one part. */
  function Split(s: string, c: char): (r: seq<string>)
    ensures |r| >= 1
    decreases |s|
  {
    if |s| == 0 then [""]
    else
      var rest := Split(s[1..], c);
      if s[0] == c then [""] + rest
      else [[s[0]] + rest[0]] + rest[1..]
  }

  /** Splitting at the first separator of `a + [c] + b`, when `a` holds none. */
  lemma {:induction false} SplitAtFirst(a: string, c: char, b: string)
    requires c !in a
    ensures Split(a + [c] + b, c) == [a] + Split(b, c)
    decreases |a|
  {
    if |a| == 0 {
      assert a + [c] + b == [c] + b;
      assert ([c] + b)[1..] == b;
    } else {
      SplitAtFirst(a[1..], c, b);
      assert (a + [c] + b)[1..] == a[1..] + [c] + b;
      assert [a[0]] + a[1..] == a;
    }
  }

  /** `c.join(parts)`: the inverse of `Split`. */
  function Join(parts: seq<string>, c: char): (r: string)
    requires |parts| >= 1
    decreases |parts|
  {
    if |parts| == 1 then parts[0]
    else parts[0] + [c] + Join(parts[1..], c)
  }

  /** No part of a split holds the separator. */
  lemma {:induction false} SplitPartsFree(s: string, c: char)
    ensures forall k :: 0 <= k < |Split(s, c)| ==> c !in Split(s, c)[k]
    decreases |s|
  {
    if |s| > 0 {
      SplitPartsFree(s[1..], c);
    }
  }

  /** Joining the parts with the separator gives back the string. */
  lemma {:induction false} JoinSplit(s: string, c: char)
    ensures Join(Split(s, c), c) == s
    decreases |s|
  {
    if |s| > 0 {
      var rest := Split(s[1..], c);
      JoinSplit(s[1..], c);
      if s[0] == c {
        assert Split(s, c) == [""] + rest;
        assert ([""] + rest)[1..] == rest;
        assert s == [c] + s[1..];
      } else {
        var parts := Split(s, c);
        assert parts == [[s[0]] + rest[0]] + rest[1..];
        if |rest| == 1 {
          assert s == [s[0]] + s[1..];
        } else {
          assert parts[1..] == rest[1..];
          assert Join(rest, c) == rest[0] + [c] + Join(rest[1..], c);
          assert s == [s[0]] + s[1..];
        }
      }
    }
  }

  /** The text before the first occurrence of `p` does not contain `p`. */
  lemma PrefixBeforeFirst(s: string, p: string, i: int)
    requires |p| > 0 && 0 <= i && OccursAt(s, p, i)
    requires forall j :: 0 <= j < i ==> !OccursAt(s, p, j)
    ensures !Contains(s[..i], p)
  {
    var a := s[..i];
    var j := Find(a, p);
    if j != -1 {
      assert a[j..j + |p|] == s[j..j + |p|];
      assert OccursAt(s, p, j);
    }
  }

  /**
   * `a, b = s.split(sep, 1)`: the text before and after the first `sep`,
   * or `None` where Python raises `ValueError` because `sep` is absent.
   */
  function SplitOnce(s: string, sep: string): (r: Option<(string, string)>)
    requires |sep| > 0
    ensures r.None? <==> !Contains(s, sep)
    ensures r.Some? ==> r.value.0 + sep + r.value.1 == s
    ensures r.Some? ==> !Contains(r.value.0, sep)
  {
    var i := Find(s, sep);
    if i < 0 then None
    else
      var a := s[..i];
      assert s == a + sep + s[i + |sep|..];
      PrefixBeforeFirst(s, sep, i);
      Some((a, s[i + |sep|..]))
  }

  /** Splitting `a + [c] + b` at a character `c` that `a` does not hold. */
  lemma SplitOnceAtChar(a: string, c: char, b: string)
    requires c !in a
    ensures SplitOnce(a + [c] + b, [c]) == Some((a, b))
  {
    var s := a + [c] + b;
    assert OccursAt(s, [c], |a|);
    forall j | 0 <= j < |a|
      ensures !OccursAt(s, [c], j)
    {
      assert s[j] == a[j];
    }
    assert s[..|a|] == a && s[|a| + 1..] == b;
  }

  /** The index of the first character at or after `i` that `drop` keeps, or `|s|`. */
  function StripStart(s: string, drop: char -> bool, i: nat): (k: nat)
    requires i <= |s|
    ensures i <= k <= |s|
    ensures k < |s| ==> !drop(s[k])
    decreases |s| - i
  {
    if i < |s| && drop(s[i]) then StripStart(s, drop, i + 1) else i
  }

  /** Everything `StripStart` skips is a dropped character. */
  lemma {:induction false} StripStartDropped(s: string, drop: char -> bool, i: nat)
    requires i <= |s|
    ensures forall k :: i <= k < StripStart(s, drop, i) ==> drop(s[k])
    decreases |s| - i
  {
    if i < |s| && drop(s[i]) {
      StripStartDropped(s, drop, i + 1);
    }
  }

  /**
   * The index just past the last character before `j`, and not before `lo`,
   * that `drop` keeps, or `lo`.
   */
  function StripEnd(s: string, drop: char -> bool, lo: nat, j: nat): (k: nat)
    requires lo <= j <= |s|
    ensures lo <= k <= j
    ensures lo < k ==> !drop(s[k - 1])
    decreases j
  {
    if lo < j && drop(s[j - 1]) then StripEnd(s, drop, lo, j - 1) else j
  }

  /** Everything `StripEnd` skips is a dropped character. */
  lemma {:induction false} StripEndDropped(s: string, drop: char -> bool, lo: nat, j: nat)
    requires lo <= j <= |s|
    ensures forall k :: StripEnd(s, drop, lo, j) <= k < j ==> drop(s[k])
    decreases j
  {
    if lo < j && drop(s[j - 1]) {
      StripEndDropped(s, drop, lo, j - 1);
    }
  }

  /**
   * `s.strip(chars)`: the slice of `s` left once every leading and trailing
   * character selected by `drop` is removed, however many there are.
   */
  function Strip(s: string, drop: char -> bool): (r: string)
    ensures |r| <= |s|
    ensures r != [] ==> !drop(r[0]) && !drop(r[|r| - 1])
  {
    var i := StripStart(s, drop, 0);
    s[i..StripEnd(s, drop, i, |s|)]
  }

  /**
   * What `Strip` keeps is one slice `s[i..j]` of the input, and everything
   * outside that slice is a dropped character.
   */
  lemma StripSlice(s: string, drop: char -> bool) returns (i: nat, j: nat)
    ensures i <= j <= |s| && Strip(s, drop) == s[i..j]
    ensures forall k :: 0 <= k < i ==> drop(s[k])
    ensures forall k :: j <= k < |s| ==> drop(s[k])
  {
    i := StripStart(s, drop, 0);
    j := StripEnd(s, drop, i, |s|);
    StripStartDropped(s, drop, 0);
    StripEndDropped(s, drop, i, |s|);
  }

  /**
   * Stripping one enclosing pair of dropped characters from a text that
   * neither starts nor ends with one gives the text back.
   */
  lemma StripEnclosed(x: string, c: char, drop: char -> bool)
    requires drop(c)
    requires x != [] ==> !drop(x[0]) && !drop(x[|x| - 1])
    ensures Strip([c] + x + [c], drop) == x
  {
    var s := [c] + x + [c];
    assert s[0] == c && s[|s| - 1] == c;
    if x == [] {
      assert StripStart(s, drop, 2) == 2;
      assert StripStart(s, drop, 0) == 2;
    } else {
      assert s[1] == x[0] && s[|s| - 2] == x[|x| - 1];
      assert StripStart(s, drop, 0) == 1;
      assert StripEnd(s, drop, 1, |s|) == |s| - 1;
      assert s[1..|s| - 1] == x;
    }
  }

  /** The quote character removed by `strip("'")`. */
  predicate IsQuote(c: char) { c == '\'' }

  /**
   * The characters removed by a bare `strip()` on a Python 2 byte string:
   * space, tab, newline, vertical tab, form feed and carriage return.
   */
  predicate IsSpace(c: char)
  {
    c == ' ' || c == '\t' || c == '\n' || c == '\U{000B}' || c == '\U{000C}' || c == '\r'
  }
}
