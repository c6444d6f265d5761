/** The string operations the program uses: split, join, cut, trim, order. */
module Text {
  import opened Wrappers

  predicate Free(s: string, sep: char) {
    sep !in s
  }

  /** Splitting at every `sep`; never empty. */
  function Split(s: string, sep: char): (parts: seq<string>)
    ensures parts != []
  {
    if s == "" then [""]
    else if s[0] == sep then [""] + Split(s[1..], sep)
    else var rest := Split(s[1..], sep); [[s[0]] + rest[0]] + rest[1..]
  }

  function Join(parts: seq<string>, sep: char): string {
    if parts == [] then "" else if |parts| == 1 then parts[0] else parts[0] + [sep] + Join(parts[1..], sep)
  }

  /** The text before and after the first `sep`. */
  function Cut(s: string, sep: char): Option<(string, string)> {
    if s == "" then None
    else if s[0] == sep then Some(("", s[1..]))
    else match Cut(s[1..], sep)
      case None => None
      case Some(pair) => Some(([s[0]] + pair.0, pair.1))
  }

  /** Removing every leading and trailing character of `cutset`. */
  function TrimLeft(s: string, cutset: set<char>): string {
    if s != "" && s[0] in cutset then TrimLeft(s[1..], cutset) else s
  }

  function TrimRight(s: string, cutset: set<char>): string {
    if s != "" && s[|s| - 1] in cutset then TrimRight(s[..|s| - 1], cutset) else s
  }

  function Trim(s: string, cutset: set<char>): string {
    TrimRight(TrimLeft(s, cutset), cutset)
  }

  predicate AllIn(s: string, cutset: set<char>) {
    forall i :: 0 <= i < |s| ==> s[i] in cutset
  }

  /** Neither end is of the cutset. */
  predicate Trimmed(s: string, cutset: set<char>) {
    s != "" ==> s[0] !in cutset && s[|s| - 1] !in cutset
  }

  lemma {:induction false} TrimLeftCuts(s: string, cutset: set<char>) returns (l: string)
    ensures s == l + TrimLeft(s, cutset) && AllIn(l, cutset)
    ensures TrimLeft(s, cutset) != "" ==> TrimLeft(s, cutset)[0] !in cutset
  {
    if s != "" && s[0] in cutset {
      l := TrimLeftCuts(s[1..], cutset);
      assert s == ([s[0]] + l) + TrimLeft(s, cutset);
      l := [s[0]] + l;
    } else {
      l := "";
      assert s == "" + s;
    }
  }

  lemma {:induction false} TrimRightCuts(s: string, cutset: set<char>) returns (r: string)
    ensures s == TrimRight(s, cutset) + r && AllIn(r, cutset)
    ensures TrimRight(s, cutset) != "" ==> TrimRight(s, cutset)[|TrimRight(s, cutset)| - 1] !in cutset
  {
    if s != "" && s[|s| - 1] in cutset {
      r := TrimRightCuts(s[..|s| - 1], cutset);
      assert s == s[..|s| - 1] + [s[|s| - 1]];
      assert s == TrimRight(s, cutset) + (r + [s[|s| - 1]]);
      r := r + [s[|s| - 1]];
    } else {
      r := "";
      assert s == s + "";
    }
  }

  /** Trimming cuts characters of the cutset off both ends, and leaves none there. */
  lemma TrimCuts(s: string, cutset: set<char>) returns (l: string, r: string)
    ensures s == l + Trim(s, cutset) + r && AllIn(l, cutset) && AllIn(r, cutset)
    ensures Trimmed(Trim(s, cutset), cutset)
  {
    l := TrimLeftCuts(s, cutset);
    var left := TrimLeft(s, cutset);
    r := TrimRightCuts(left, cutset);
    assert s == l + (Trim(s, cutset) + r);
    if Trim(s, cutset) != "" {
      assert Trim(s, cutset)[0] == left[0];
    }
  }

  lemma {:induction false} TrimLeftOf(l: string, s: string, cutset: set<char>)
    requires AllIn(l, cutset)
    ensures TrimLeft(l + s, cutset) == TrimLeft(s, cutset)
  {
    if l == "" {
      assert l + s == s;
    } else {
      TrimLeftOf(l[1..], s, cutset);
      assert (l + s)[1..] == l[1..] + s;
    }
  }

  lemma {:induction false} TrimRightOf(s: string, r: string, cutset: set<char>)
    requires AllIn(r, cutset)
    ensures TrimRight(s + r, cutset) == TrimRight(s, cutset)
  {
    if r == "" {
      assert s + r == s;
    } else {
      TrimRightOf(s, r[..|r| - 1], cutset);
      assert (s + r)[..|s + r| - 1] == s + r[..|r| - 1];
    }
  }

  /** What is left is what stands between the characters of the cutset at the ends. */
  lemma TrimOf(l: string, core: string, r: string, cutset: set<char>)
    requires AllIn(l, cutset) && AllIn(r, cutset) && Trimmed(core, cutset)
    ensures Trim(l + core + r, cutset) == core
  {
    assert l + core + r == l + (core + r);
    TrimLeftOf(l, core + r, cutset);
    if core == "" {
      assert core + r == r + "";
      TrimLeftOf(r, "", cutset);
    } else {
      assert TrimLeft(core + r, cutset) == core + r;
      TrimRightOf(core, r, cutset);
    }
  }

  /** The texts `f` gives for the parts, one after the other. */
  function MapConcat(f: string -> string, parts: seq<string>): string {
    if parts == [] then "" else f(parts[0]) + MapConcat(f, parts[1..])
  }

  lemma MapConcatOne(f: string -> string, part: string)
    ensures MapConcat(f, [part]) == f(part)
  {
    assert [part][1..] == [];
    assert f(part) + "" == f(part);
  }

  lemma Regroup<T>(a: seq<T>, b: seq<T>, c: seq<T>)
    ensures a + (b + c) == (a + b) + c
  {
  }

  lemma {:induction false} MapConcatAppend(f: string -> string, a: seq<string>, b: seq<string>)
    ensures MapConcat(f, a + b) == MapConcat(f, a) + MapConcat(f, b)
  {
    if a == [] {
      assert a + b == b;
    } else {
      MapConcatAppend(f, a[1..], b);
      assert (a + b)[1..] == a[1..] + b && (a + b)[0] == a[0];
      Regroup(f(a[0]), MapConcat(f, a[1..]), MapConcat(f, b));
    }
  }

  lemma SplitHead(c: char, s: string, sep: char)
    ensures Split([c] + s, sep) ==
              if c == sep then [""] + Split(s, sep) else [[c] + Split(s, sep)[0]] + Split(s, sep)[1..]
  {
    assert ([c] + s)[1..] == s;
  }

  /** Splitting works piecewise. */
  lemma {:induction false} SplitAppend(a: string, b: string, sep: char)
    ensures Split(a + [sep] + b, sep) == Split(a, sep) + Split(b, sep)
  {
    if a == "" {
      assert a + [sep] + b == [sep] + b;
      SplitHead(sep, b, sep);
    } else {
      SplitAppend(a[1..], b, sep);
      assert a == [a[0]] + a[1..] && a + [sep] + b == [a[0]] + (a[1..] + [sep] + b);
      SplitHead(a[0], a[1..], sep);
      SplitHead(a[0], a[1..] + [sep] + b, sep);
      HeadTail(Split(a[1..], sep), Split(b, sep));
    }
  }

  lemma HeadTail<T(!new)>(a: seq<T>, b: seq<T>)
    requires a != []
    ensures (a + b)[0] == a[0] && (a + b)[1..] == a[1..] + b
    ensures forall x: T :: [x] + (a + b) == ([x] + a) + b && [x] + (a[1..] + b) == ([x] + a[1..]) + b
  {
  }

  lemma {:induction false} SplitFree(s: string, sep: char)
    requires Free(s, sep)
    ensures Split(s, sep) == [s]
  {
    if s != "" {
      SplitFree(s[1..], sep);
      assert s == [s[0]] + s[1..];
    }
  }

  lemma {:induction false} SplitJoin(parts: seq<string>, sep: char)
    requires parts != [] && forall i :: 0 <= i < |parts| ==> Free(parts[i], sep)
    ensures Split(Join(parts, sep), sep) == parts
  {
    if |parts| == 1 {
      SplitFree(parts[0], sep);
    } else {
      SplitAppend(parts[0], Join(parts[1..], sep), sep);
      SplitFree(parts[0], sep);
      SplitJoin(parts[1..], sep);
    }
  }

  lemma {:induction false} JoinSplit(s: string, sep: char)
    ensures Join(Split(s, sep), sep) == s
    ensures forall i :: 0 <= i < |Split(s, sep)| ==> Free(Split(s, sep)[i], sep)
  {
    if s != "" {
      JoinSplit(s[1..], sep);
      var rest := Split(s[1..], sep);
      if s[0] == sep {
        assert ([""] + rest)[1..] == rest;
      } else {
        assert ([[s[0]] + rest[0]] + rest[1..])[1..] == rest[1..];
      }
    }
  }

  lemma {:induction false} CutPrefix(s: string, rest: string, sep: char)
    requires Free(s, sep)
    ensures Cut(s + [sep] + rest, sep) == Some((s, rest))
  {
    if s == "" {
      assert s + [sep] + rest == [sep] + rest;
    } else {
      CutPrefix(s[1..], rest, sep);
      assert (s + [sep] + rest)[1..] == s[1..] + [sep] + rest;
      assert s == [s[0]] + s[1..];
    }
  }

  /** Before, in the order of strings. */
  predicate Less(a: string, b: string) {
    b != "" && (a == "" || a[0] < b[0] || (a[0] == b[0] && Less(a[1..], b[1..])))
  }

  /** They agree before i, where a's character is the smaller. */
  predicate DifferAt(a: string, b: string, i: nat) {
    i < |a| && i < |b| && a[..i] == b[..i] && a[i] < b[i]
  }

  /** One string is before another if it is a proper prefix, or smaller where they first differ. */
  lemma {:induction false} LessExactly(a: string, b: string)
    ensures Less(a, b) <==> a < b || exists i: nat :: DifferAt(a, b, i)
  {
    if a != "" && b != "" && a[0] == b[0] {
      LessExactly(a[1..], b[1..]);
      assert a == [a[0]] + a[1..] && b == [b[0]] + b[1..];
      assert a < b <==> a[1..] < b[1..];
      if i: nat :| DifferAt(a[1..], b[1..], i) {
        assert a[..i + 1] == [a[0]] + a[1..][..i] && b[..i + 1] == [b[0]] + b[1..][..i];
        assert DifferAt(a, b, i + 1);
      }
      if i: nat :| DifferAt(a, b, i) {
        assert a[1..][..i - 1] == a[..i][1..] && b[1..][..i - 1] == b[..i][1..];
        assert DifferAt(a[1..], b[1..], i - 1);
      }
    } else if a != "" && b != "" && a[0] < b[0] {
      assert DifferAt(a, b, 0);
    }
  }

  lemma {:induction false} LessIsTotal(a: string, b: string)
    ensures !(Less(a, b) && Less(b, a)) && (Less(a, b) || a == b || Less(b, a))
  {
    if a != "" && b != "" && a[0] == b[0] {
      LessIsTotal(a[1..], b[1..]);
      assert a == [a[0]] + a[1..] && b == [b[0]] + b[1..];
    }
  }

  lemma {:induction false} NotLessIsTransitive(a: string, b: string, c: string)
    requires !Less(b, a) && !Less(c, b)
    ensures !Less(c, a)
  {
    if a != "" && b != "" && c != "" && a[0] == b[0] == c[0] {
      NotLessIsTransitive(a[1..], b[1..], c[1..]);
    }
  }
}
