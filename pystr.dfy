/**
 * The handful of Python `str` operations the crawler's field rules are made of,
 * restricted to the forms the crawler uses: `split` and `replace` with a
 * one-character argument, and slices with a constant non-negative or negative
 * start (`s[n:]`, `s[-n:]`).
 */
module PyStr {

  /** `s.split(sep)`: the pieces between occurrences of `sep`, empty pieces
      included; there is always at least one piece. */
  function Split(s: string, sep: char): (parts: seq<string>)
    ensures |parts| >= 1
    decreases |s|
  {
    if s == [] then [[]]
    else
      var rest := Split(s[1..], sep);
      if s[0] == sep then [[]] + rest
      else [[s[0]] + rest[0]] + rest[1..]
  }

  /** `sep.join(parts)`, the inverse of Split. */
  function Join(parts: seq<string>, sep: char): string
    requires |parts| >= 1
    decreases |parts|
  {
    if |parts| == 1 then parts[0] else parts[0] + [sep] + Join(parts[1..], sep)
  }

  /** `s.split(sep)[0]`: the longest separator-free prefix of `s`. */
  function First(s: string, sep: char): (r: string)
    ensures IsPrefix(r, s)
    ensures sep !in r
    ensures |r| < |s| ==> s[|r|] == sep
  {
    FirstPrefix(s, sep);
    SplitPiecesLackSep(s, sep);
    Split(s, sep)[0]
  }

  /** `s.split(sep)[-1]`: the longest separator-free suffix of `s`. */
  function Last(s: string, sep: char): (r: string)
    ensures IsSuffix(r, s)
    ensures sep !in r
    ensures |r| < |s| ==> s[|s| - |r| - 1] == sep
  {
    LastSuffix(s, sep);
    SplitPiecesLackSep(s, sep);
    var parts := Split(s, sep);
    parts[|parts| - 1]
  }

  /** `"".join(parts)` */
  function Concat(parts: seq<string>): string
    decreases |parts|
  {
    if parts == [] then [] else parts[0] + Concat(parts[1..])
  }

  /** `s.replace(c, "")`: every occurrence of `c` deleted. */
  function Remove(s: string, c: char): (r: string)
    ensures c !in r
    ensures |r| <= |s|
    decreases |s|
  {
    if s == [] then []
    else (if s[0] == c then [] else [s[0]]) + Remove(s[1..], c)
  }

  /** `s[n:]` for a non-negative `n`; Python clamps a start past the end. */
  function Drop(s: string, n: nat): (r: string)
    ensures |r| == if n <= |s| then |s| - n else 0
    ensures r == s[|s| - |r|..]
  {
    if n <= |s| then s[n..] else []
  }

  /** `s[-n:]` for a positive `n`; Python clamps a start before the beginning. */
  function TakeLast(s: string, n: nat): (r: string)
    requires n > 0
    ensures |r| == if |s| <= n then |s| else n
    ensures r == s[|s| - |r|..]
  {
    if |s| <= n then s else s[|s| - n..]
  }

  predicate IsPrefix(p: string, s: string) { |p| <= |s| && s[..|p|] == p }

  predicate IsSuffix(p: string, s: string) { |p| <= |s| && s[|s| - |p|..] == p }

  /** Splitting and joining again gives the original string back. */
  lemma {:induction false} JoinSplit(s: string, sep: char)
    ensures Join(Split(s, sep), sep) == s
    decreases |s|
  {
    if s != [] {
      JoinSplit(s[1..], sep);
      var rest := Split(s[1..], sep);
      if s[0] == sep {
        assert Split(s, sep) == [[]] + rest;
        assert ([[]] + rest)[1..] == rest;
      } else {
        var parts := Split(s, sep);
        assert parts == [[s[0]] + rest[0]] + rest[1..];
        if |rest| == 1 {
          assert parts == [[s[0]] + rest[0]];
        } else {
          assert parts[1..] == rest[1..];
          assert Join(rest, sep) == rest[0] + [sep] + Join(rest[1..], sep);
        }
      }
    }
  }

  /** No piece of a split contains the separator. */
  lemma {:induction false} SplitPiecesLackSep(s: string, sep: char)
    ensures forall i :: 0 <= i < |Split(s, sep)| ==> sep !in Split(s, sep)[i]
    decreases |s|
  {
    if s != [] {
      SplitPiecesLackSep(s[1..], sep);
      var rest := Split(s[1..], sep);
      var parts := Split(s, sep);
      if s[0] != sep {
        forall i | 0 <= i < |parts| ensures sep !in parts[i] {
          if i == 0 {
            assert parts[0] == [s[0]] + rest[0];
          } else {
            assert parts[i] == rest[i];
          }
        }
      }
    }
  }

  /** A string without the separator is a single piece. */
  lemma {:induction false} SplitWithoutSep(s: string, sep: char)
    requires sep !in s
    ensures Split(s, sep) == [s]
    decreases |s|
  {
    if s != [] {
      assert s[0] in s;
      SplitWithoutSep(s[1..], sep);
      assert [s[0]] + s[1..] == s;
    }
  }

  /** Splitting at a separator after a separator-free head. */
  lemma {:induction false} SplitAfterHead(a: string, sep: char, b: string)
    requires sep !in a
    ensures Split(a + [sep] + b, sep) == [a] + Split(b, sep)
    decreases |a|
  {
    if a == [] {
      assert a + [sep] + b == [sep] + b;
      assert ([sep] + b)[1..] == b;
    } else {
      var s := a + [sep] + b;
      assert s[0] == a[0];
      assert s[1..] == a[1..] + [sep] + b;
      SplitAfterHead(a[1..], sep, b);
      assert [a[0]] + a[1..] == a;
    }
  }

  /** Joining separator-free pieces and splitting again gives the pieces back. */
  lemma {:induction false} SplitJoin(parts: seq<string>, sep: char)
    requires |parts| >= 1
    requires forall i :: 0 <= i < |parts| ==> sep !in parts[i]
    ensures Split(Join(parts, sep), sep) == parts
    decreases |parts|
  {
    if |parts| == 1 {
      SplitWithoutSep(parts[0], sep);
    } else {
      SplitJoin(parts[1..], sep);
      SplitAfterHead(parts[0], sep, Join(parts[1..], sep));
      assert [parts[0]] + parts[1..] == parts;
    }
  }

  lemma {:induction false} FirstPrefix(s: string, sep: char)
    ensures IsPrefix(Split(s, sep)[0], s)
    ensures |Split(s, sep)[0]| < |s| ==> s[|Split(s, sep)[0]|] == sep
    decreases |s|
  {
    if s != [] && s[0] != sep {
      var t := s[1..];
      FirstPrefix(t, sep);
      var p := Split(t, sep)[0];
      assert Split(s, sep)[0] == [s[0]] + p;
      ConsPrefix(s[0], p, t, sep);
      assert [s[0]] + t == s;
    }
  }

  /** A prefix stays a prefix, followed by the same character, with one character put in front of both. */
  lemma ConsPrefix(c: char, p: string, t: string, sep: char)
    requires IsPrefix(p, t) && (|p| < |t| ==> t[|p|] == sep)
    ensures IsPrefix([c] + p, [c] + t) && (|p| < |t| ==> ([c] + t)[|[c] + p|] == sep)
  {
    assert ([c] + t)[..|[c] + p|] == [c] + t[..|p|];
  }

  function LastOf(parts: seq<string>): string
    requires |parts| >= 1
  {
    parts[|parts| - 1]
  }

  lemma {:induction false} LastSuffix(s: string, sep: char)
    ensures IsSuffix(LastOf(Split(s, sep)), s)
    ensures |LastOf(Split(s, sep))| < |s| ==> s[|s| - |LastOf(Split(s, sep))| - 1] == sep
    ensures |Split(s, sep)| == 1 ==> LastOf(Split(s, sep)) == s
    ensures |Split(s, sep)| > 1 ==> |LastOf(Split(s, sep))| < |s|
    decreases |s|
  {
    if s != [] {
      var t := s[1..];
      LastSuffix(t, sep);
      var rest := Split(t, sep);
      var parts := Split(s, sep);
      var r := LastOf(rest);
      if s[0] == sep || |rest| > 1 {
        if s[0] == sep {
          assert parts == [[]] + rest;
        } else {
          assert parts == [[s[0]] + rest[0]] + rest[1..];
        }
        assert LastOf(parts) == r;
        TailSuffix(r, s);
      } else {
        assert parts == [[s[0]] + rest[0]];
        assert rest[0] == t;
        assert [s[0]] + t == s;
      }
    }
  }

  /** A suffix of the tail is a suffix of the whole, shorter than it, with the
      same character before it when it is shorter than the tail. */
  lemma TailSuffix(r: string, s: string)
    requires s != [] && IsSuffix(r, s[1..])
    ensures IsSuffix(r, s) && |r| < |s|
    ensures |r| < |s| - 1 ==> s[|s| - |r| - 1] == s[1..][|s| - 1 - |r| - 1]
  {
    assert s[|s| - |r|..] == s[1..][|s| - 1 - |r|..];
  }

  /** Deleting a character distributes over concatenation. */
  lemma {:induction false} RemoveConcat(a: string, b: string, c: char)
    ensures Remove(a + b, c) == Remove(a, c) + Remove(b, c)
    decreases |a|
  {
    if a != [] {
      assert (a + b)[0] == a[0];
      assert (a + b)[1..] == a[1..] + b;
      RemoveConcat(a[1..], b, c);
      var head := if a[0] == c then [] else [a[0]];
      assert Remove(a + b, c) == head + (Remove(a[1..], c) + Remove(b, c));
      assert Remove(a, c) == head + Remove(a[1..], c);
    } else {
      assert a + b == b;
    }
  }

  /** Deleting a character that does not occur changes nothing, and conversely. */
  lemma {:induction false} RemoveIdentity(s: string, c: char)
    ensures Remove(s, c) == s <==> c !in s
    decreases |s|
  {
    if s != [] {
      RemoveIdentity(s[1..], c);
      if s[0] == c {
        assert |Remove(s, c)| <= |s[1..]| < |s|;
      }
    }
  }

  /** Deleting `c` keeps every other character, as often as it occurred. */
  lemma {:induction false} RemoveKeepsOthers(s: string, c: char, x: char)
    requires x != c
    ensures multiset(Remove(s, c))[x] == multiset(s)[x]
    ensures multiset(Remove(s, c))[c] == 0
    decreases |s|
  {
    if s != [] {
      RemoveKeepsOthers(s[1..], c, x);
      var head := if s[0] == c then [] else [s[0]];
      assert Remove(s, c) == head + Remove(s[1..], c);
      assert s == [s[0]] + s[1..];
    }
  }

  /** Deleting `c` keeps exactly the other characters that occur. */
  lemma RemoveMembers(s: string, c: char, x: char)
    requires x != c
    ensures x in Remove(s, c) <==> x in s
  {
    RemoveKeepsOthers(s, c, x);
    assert x in Remove(s, c) <==> multiset(Remove(s, c))[x] > 0;
    assert x in s <==> multiset(s)[x] > 0;
  }

  /** Deleting the separator from a join gives the pieces run together. */
  lemma {:induction false} RemoveJoin(parts: seq<string>, sep: char)
    requires |parts| >= 1
    requires forall i :: 0 <= i < |parts| ==> sep !in parts[i]
    ensures Remove(Join(parts, sep), sep) == Concat(parts)
    decreases |parts|
  {
    RemoveIdentity(parts[0], sep);
    if |parts| == 1 {
      assert Concat(parts[1..]) == [];
      assert Concat(parts) == parts[0] + [];
    } else {
      var head, tail := parts[0], Join(parts[1..], sep);
      assert forall i :: 0 <= i < |parts[1..]| ==> sep !in parts[1..][i];
      RemoveJoin(parts[1..], sep);
      var single: string := [sep];
      assert Remove(single, sep) == [] by { assert single[1..] == []; }
      RemoveConcat(head, single, sep);
      assert Remove(head + single, sep) == head;
      RemoveConcat(head + single, tail, sep);
      assert Join(parts, sep) == head + single + tail;
      assert Remove(Join(parts, sep), sep) == head + Concat(parts[1..]);
    }
  }

  /** A character that no piece contains, other than the separator, is not in the join. */
  lemma {:induction false} JoinLacks(parts: seq<string>, sep: char, x: char)
    requires |parts| >= 1 && x != sep
    requires forall i :: 0 <= i < |parts| ==> x !in parts[i]
    ensures x !in Join(parts, sep)
    decreases |parts|
  {
    if |parts| > 1 {
      JoinLacks(parts[1..], sep, x);
    }
  }

  /** Deleting one character commutes with taking the first piece on another. */
  lemma {:induction false} FirstOfRemove(s: string, sep: char, c: char)
    requires sep != c
    ensures First(Remove(s, c), sep) == Remove(First(s, sep), c)
    decreases |s|
  {
    if s != [] {
      FirstOfRemove(s[1..], sep, c);
      if s[0] == c {
        assert Remove(s, c) == Remove(s[1..], c);
        assert First(s, sep) == [s[0]] + First(s[1..], sep);
        RemoveConcat([s[0]], First(s[1..], sep), c);
      } else {
        var r := Remove(s, c);
        assert r == [s[0]] + Remove(s[1..], c);
        assert r[0] == s[0] && r[1..] == Remove(s[1..], c);
        if s[0] != sep {
          assert First(s, sep) == [s[0]] + First(s[1..], sep);
          RemoveConcat([s[0]], First(s[1..], sep), c);
        }
      }
    }
  }
}
