/**
 * The few Python built-ins the core leans on, written out: an optional value,
 * `str.strip`, `str.split()`, `str.casefold` (ASCII only), string ordering and
 * the stable `list.sort(key=...)`.
 */
module Builtins {

  datatype Option<+T> = None | Some(value: T)
  {
    function GetOr(default: T): T
    {
      match this
      case Some(v) => v
      case None => default
    }
  }

  // ---------------------------------------------------------------------------
  // Whitespace, strip and split
  // ---------------------------------------------------------------------------

  /**
   * Whitespace as `str.isspace`, `str.strip()` and `str.split()` see it: \t to
   * \r, the separators U+001C to U+001F, space, U+0085, the no-break space
   * U+00A0, and the Unicode spaces and line and paragraph separators.
   */
  predicate IsSpace(c: char)
  {
    || ('\t' <= c <= '\r')
    || ('\U{1C}' <= c <= '\U{1F}')
    || c == ' '
    || c == '\U{85}'
    || c == '\U{A0}'
    || c == '\U{1680}'
    || ('\U{2000}' <= c <= '\U{200A}')
    || c == '\U{2028}'
    || c == '\U{2029}'
    || c == '\U{202F}'
    || c == '\U{205F}'
    || c == '\U{3000}'
  }

  function TrimStart(s: string): (r: string)
    ensures |r| <= |s|
    ensures r == [] || !IsSpace(r[0])
    decreases |s|
  {
    if s == [] || !IsSpace(s[0]) then s else TrimStart(s[1..])
  }

  function TrimEnd(s: string): (r: string)
    ensures |r| <= |s|
    ensures r == [] || (r[0] == s[0] && !IsSpace(r[|r| - 1]))
    decreases |s|
  {
    if s == [] || !IsSpace(s[|s| - 1]) then s else TrimEnd(s[..|s| - 1])
  }

  /** `str.strip()` with no argument. */
  function Strip(s: string): (r: string)
    ensures r == [] || (!IsSpace(r[0]) && !IsSpace(r[|r| - 1]))
  {
    TrimEnd(TrimStart(s))
  }

  /** Stripping drops only leading whitespace from the front... */
  lemma {:induction false} TrimStartDropsSpaces(s: string)
    ensures var r := TrimStart(s);
      r == s[|s| - |r|..] && forall k :: 0 <= k < |s| - |r| ==> IsSpace(s[k])
    decreases |s|
  {
    if s != [] && IsSpace(s[0]) {
      TrimStartDropsSpaces(s[1..]);
    }
  }

  /** ...and only trailing whitespace from the back. */
  lemma {:induction false} TrimEndDropsSpaces(s: string)
    ensures var r := TrimEnd(s);
      r == s[..|r|] && forall k :: |r| <= k < |s| ==> IsSpace(s[k])
    decreases |s|
  {
    if s != [] && IsSpace(s[|s| - 1]) {
      TrimEndDropsSpaces(s[..|s| - 1]);
    }
  }

  /** Length of the leading run of non-space characters. */
  function WordLength(s: string): (n: nat)
    ensures n <= |s|
    ensures forall k :: 0 <= k < n ==> !IsSpace(s[k])
    ensures n == |s| || IsSpace(s[n])
    ensures s != [] && !IsSpace(s[0]) ==> n > 0
    decreases |s|
  {
    if s == [] || IsSpace(s[0]) then 0 else 1 + WordLength(s[1..])
  }

  /** `str.split()` with no argument: the maximal runs of non-space characters. */
  function Words(s: string): (ws: seq<string>)
    ensures forall k :: 0 <= k < |ws| ==> ws[k] != []
    decreases |s|
  {
    if s == [] then []
    else if IsSpace(s[0]) then Words(s[1..])
    else
      var n := WordLength(s);
      [s[..n]] + Words(s[n..])
  }

  /** The characters of `s` that are not whitespace, in order. */
  function NonSpaces(s: string): string
    decreases |s|
  {
    if s == [] then [] else (if IsSpace(s[0]) then [] else [s[0]]) + NonSpaces(s[1..])
  }

  /** The words run together. */
  function Concat(ws: seq<string>): string
    decreases |ws|
  {
    if ws == [] then [] else ws[0] + Concat(ws[1..])
  }

  /** No word holds whitespace. */
  lemma {:induction false} WordsHaveNoSpaces(s: string)
    ensures forall k, j :: 0 <= k < |Words(s)| && 0 <= j < |Words(s)[k]| ==> !IsSpace(Words(s)[k][j])
    decreases |s|
  {
    if s != [] {
      if IsSpace(s[0]) {
        WordsHaveNoSpaces(s[1..]);
      } else {
        var n := WordLength(s);
        WordsHaveNoSpaces(s[n..]);
        var ws := Words(s);
        assert ws == [s[..n]] + Words(s[n..]);
        forall k, j | 0 <= k < |ws| && 0 <= j < |ws[k]| ensures !IsSpace(ws[k][j]) {
          if k > 0 {
            assert ws[k] == Words(s[n..])[k - 1];
          }
        }
      }
    }
  }

  /** The words, run together, are the text's non-space characters in order. */
  lemma {:induction false} WordsCoverText(s: string)
    ensures Concat(Words(s)) == NonSpaces(s)
    decreases |s|
  {
    if s != [] {
      if IsSpace(s[0]) {
        WordsCoverText(s[1..]);
      } else {
        var n := WordLength(s);
        WordsCoverText(s[n..]);
        NonSpacesOfRun(s, n);
        assert Words(s) == [s[..n]] + Words(s[n..]);
        assert Concat(Words(s)) == s[..n] + Concat(Words(s[n..]));
      }
    }
  }

  lemma {:induction false} NonSpacesOfRun(s: string, n: nat)
    requires n <= |s| && forall k :: 0 <= k < n ==> !IsSpace(s[k])
    ensures NonSpaces(s) == s[..n] + NonSpaces(s[n..])
    decreases n
  {
    if n > 0 {
      NonSpacesOfRun(s[1..], n - 1);
      assert s[1..][n - 1..] == s[n..];
      assert [s[0]] + s[1..][..n - 1] == s[..n];
    }
  }

  /** A non-empty run without whitespace is one word. */
  lemma WordsOfRun(w: string)
    requires w != [] && forall k :: 0 <= k < |w| ==> !IsSpace(w[k])
    ensures Words(w) == [w]
  {
    WordLengthOfRun(w);
    assert !IsSpace(w[0]);
    assert w[..|w|] == w && w[|w|..] == [];
    assert Words(w) == [w[..|w|]] + Words(w[|w|..]);
  }

  lemma {:induction false} WordLengthOfRun(w: string)
    requires forall k :: 0 <= k < |w| ==> !IsSpace(w[k])
    ensures WordLength(w) == |w|
    decreases |w|
  {
    if w != [] {
      WordLengthOfRun(w[1..]);
    }
  }

  /**
   * A whitespace character splits the text: the words of `a + [x] + b` are the
   * words of `a` followed by those of `b`. With `WordsOfRun` this determines
   * `Words` on every text, so words are exactly the maximal runs.
   */
  lemma {:induction false} WordsSplitAtSpace(a: string, x: char, b: string)
    requires IsSpace(x)
    ensures Words(a + [x] + b) == Words(a) + Words(b)
    decreases |a|
  {
    var s := a + [x] + b;
    if a == [] {
      assert s[0] == x && s[1..] == b;
    } else if IsSpace(a[0]) {
      WordsSplitAtSpace(a[1..], x, b);
      assert s[0] == a[0] && s[1..] == a[1..] + [x] + b;
    } else {
      var n := WordLength(a);
      WordsSplitAtSpace(a[n..], x, b);
      WordsSplitWord(a, x, b);
    }
  }

  /** The first word of `a + [x] + b` is the first word of `a`, when `a` starts with one. */
  lemma WordsSplitWord(a: string, x: char, b: string)
    requires IsSpace(x) && a != [] && !IsSpace(a[0])
    ensures var n := WordLength(a);
      && Words(a + [x] + b) == [a[..n]] + Words(a[n..] + [x] + b)
      && Words(a) == [a[..n]] + Words(a[n..])
  {
    var s := a + [x] + b;
    var n := WordLength(a);
    WordLengthExtends(a, [x] + b);
    assert a + ([x] + b) == s && s[0] == a[0];
    assert s[..n] == a[..n] && s[n..] == a[n..] + [x] + b;
  }

  lemma {:induction false} WordLengthExtends(a: string, t: string)
    requires t == [] || IsSpace(t[0])
    ensures WordLength(a + t) == WordLength(a)
    decreases |a|
  {
    if a != [] {
      assert (a + t)[1..] == a[1..] + t;
      if !IsSpace(a[0]) {
        WordLengthExtends(a[1..], t);
      }
    } else {
      assert a + t == t;
    }
  }

  // ---------------------------------------------------------------------------
  // Case folding and string ordering
  // ---------------------------------------------------------------------------

  function Lower(c: char): char
  {
    if 'A' <= c <= 'Z' then (c as int + 32) as char else c
  }

  /** `str.casefold`, restricted to ASCII letters. */
  function Casefold(s: string): (r: string)
    ensures |r| == |s|
  {
    seq(|s|, i requires 0 <= i < |s| => Lower(s[i]))
  }

  /** Python's `<=` on `str`: lexicographic by code point. */
  predicate StrLe(a: string, b: string)
    decreases |a|
  {
    a == [] || (b != [] && (a[0] < b[0] || (a[0] == b[0] && StrLe(a[1..], b[1..]))))
  }

  lemma {:induction false} StrLeTotal(a: string, b: string)
    ensures StrLe(a, b) || StrLe(b, a)
    decreases |a|
  {
    if a != [] && b != [] && a[0] == b[0] {
      StrLeTotal(a[1..], b[1..]);
    }
  }

  lemma {:induction false} StrLeTransitive(a: string, b: string, c: string)
    requires StrLe(a, b) && StrLe(b, c)
    ensures StrLe(a, c)
    decreases |a|
  {
    if a != [] && b != [] && c != [] && a[0] == b[0] && b[0] == c[0] {
      StrLeTransitive(a[1..], b[1..], c[1..]);
    }
  }

  /** `[f(x) for x in s]`. */
  function Map<T, U>(s: seq<T>, f: T -> U): (r: seq<U>)
    ensures |r| == |s| && forall i :: 0 <= i < |s| ==> r[i] == f(s[i])
  {
    seq(|s|, i requires 0 <= i < |s| => f(s[i]))
  }

  // ---------------------------------------------------------------------------
  // list.sort(key=...): a stable insertion sort under a total preorder
  // ---------------------------------------------------------------------------

  ghost predicate TotalPreorder<T(!new)>(le: (T, T) -> bool)
  {
    && (forall x, y :: le(x, y) || le(y, x))
    && (forall x, y, z :: le(x, y) && le(y, z) ==> le(x, z))
  }

  ghost predicate SortedBy<T>(s: seq<T>, le: (T, T) -> bool)
  {
    forall i, j :: 0 <= i < j < |s| ==> le(s[i], s[j])
  }

  /** Inserts `x` before the first element it does not exceed; `x` comes from
      earlier in the input than all of `s`, so equal elements keep their order. */
  function InsertSorted<T>(x: T, s: seq<T>, le: (T, T) -> bool): (r: seq<T>)
    ensures |r| == |s| + 1
  {
    if s == [] || le(x, s[0]) then [x] + s
    else
      assert s == [s[0]] + s[1..];
      [s[0]] + InsertSorted(x, s[1..], le)
  }

  /** Sorts stably: scans from the back, inserting each element into the sorted rest. */
  function SortBy<T>(s: seq<T>, le: (T, T) -> bool): (r: seq<T>)
    ensures multiset(r) == multiset(s)
    ensures |r| == |s|
  {
    if s == [] then []
    else
      assert s == [s[0]] + s[1..];
      InsertSortedPermutes(s[0], SortBy(s[1..], le), le);
      InsertSorted(s[0], SortBy(s[1..], le), le)
  }

  /** Inserting adds `x` and nothing else. */
  lemma {:induction false} InsertSortedPermutes<T>(x: T, s: seq<T>, le: (T, T) -> bool)
    ensures multiset(InsertSorted(x, s, le)) == multiset(s) + multiset{x}
  {
    if s != [] && !le(x, s[0]) {
      InsertSortedPermutes(x, s[1..], le);
      assert s == [s[0]] + s[1..];
    }
  }

  lemma {:induction false} InsertSortedIsSorted<T(!new)>(x: T, s: seq<T>, le: (T, T) -> bool)
    requires TotalPreorder(le)
    requires SortedBy(s, le)
    ensures SortedBy(InsertSorted(x, s, le), le)
  {
    if s == [] || le(x, s[0]) {
    } else {
      InsertSortedIsSorted(x, s[1..], le);
      InsertSortedPermutes(x, s[1..], le);
      var r := InsertSorted(x, s[1..], le);
      forall k | 0 <= k < |r| ensures le(s[0], r[k]) {
        assert r[k] in multiset(r);
        assert r[k] == x || r[k] in multiset(s[1..]);
        if r[k] != x {
          var j :| 0 <= j < |s[1..]| && s[1..][j] == r[k];
          assert s[j + 1] == r[k];
        }
      }
    }
  }

  /** The result of `SortBy` is sorted and a permutation of its input. */
  lemma {:induction false} SortByIsSorted<T(!new)>(s: seq<T>, le: (T, T) -> bool)
    requires TotalPreorder(le)
    ensures SortedBy(SortBy(s, le), le)
    ensures multiset(SortBy(s, le)) == multiset(s)
  {
    if s != [] {
      SortByIsSorted(s[1..], le);
      InsertSortedIsSorted(s[0], SortBy(s[1..], le), le);
    }
  }

  /** The elements of `s` that tie with `e` (each sorts no later than the other), in order. */
  function Ties<T>(s: seq<T>, le: (T, T) -> bool, e: T): seq<T>
  {
    if s == [] then [] else TieOf(s[0], le, e) + Ties(s[1..], le, e)
  }

  function TieOf<T>(x: T, le: (T, T) -> bool, e: T): seq<T>
  {
    if le(x, e) && le(e, x) then [x] else []
  }

  lemma TiesCons<T>(x: T, s: seq<T>, le: (T, T) -> bool, e: T)
    ensures Ties([x] + s, le, e) == TieOf(x, le, e) + Ties(s, le, e)
  {
    assert ([x] + s)[1..] == s;
  }

  /** Inserting keeps `x` ahead of the elements it ties with. */
  lemma {:induction false} InsertSortedStable<T(!new)>(x: T, s: seq<T>, le: (T, T) -> bool, e: T)
    requires TotalPreorder(le)
    ensures Ties(InsertSorted(x, s, le), le, e) == Ties([x] + s, le, e)
  {
    if s == [] || le(x, s[0]) {
    } else {
      var rest := InsertSorted(x, s[1..], le);
      InsertSortedStable(x, s[1..], le, e);
      TiesCons(s[0], rest, le, e);
      TiesCons(x, s[1..], le, e);
      TiesCons(x, s, le, e);
      TiesCons(s[0], s[1..], le, e);
      assert [s[0]] + s[1..] == s;
      TiesExclusive(x, s[0], le, e);
      var tail := Ties(s[1..], le, e);
      if TieOf(x, le, e) == [] {
        assert [] + tail == tail;
      } else {
        assert TieOf(s[0], le, e) == [];
        assert [] + (TieOf(x, le, e) + tail) == TieOf(x, le, e) + tail;
      }
    }
  }

  /** Two elements that both tie with `e` sort no later than each other. */
  lemma TiesExclusive<T(!new)>(x: T, y: T, le: (T, T) -> bool, e: T)
    requires TotalPreorder(le) && !le(x, y)
    ensures TieOf(x, le, e) == [] || TieOf(y, le, e) == []
  {
  }

  /**
   * The sort is stable: the elements that tie with any `e` come out in the
   * order they went in.
   */
  lemma {:induction false} SortByStable<T(!new)>(s: seq<T>, le: (T, T) -> bool, e: T)
    requires TotalPreorder(le)
    ensures Ties(SortBy(s, le), le, e) == Ties(s, le, e)
  {
    if s != [] {
      SortByStable(s[1..], le, e);
      InsertSortedStable(s[0], SortBy(s[1..], le), le, e);
      TiesCons(s[0], SortBy(s[1..], le), le, e);
      TiesCons(s[0], s[1..], le, e);
      assert [s[0]] + s[1..] == s;
    }
  }

  lemma MapCons<T, U>(x: T, s: seq<T>, f: T -> U)
    ensures Map([x] + s, f) == [f(x)] + Map(s, f)
  {
    assert Map([x] + s, f)[1..] == Map(s, f);
  }

  lemma {:induction false} MapInsertSorted<T, U>(x: T, s: seq<T>, le: (T, T) -> bool, f: T -> U)
    ensures multiset(Map(InsertSorted(x, s, le), f)) == multiset(Map(s, f)) + multiset{f(x)}
  {
    if s == [] || le(x, s[0]) {
      MapCons(x, s, f);
    } else {
      var rest := InsertSorted(x, s[1..], le);
      MapInsertSorted(x, s[1..], le, f);
      MapCons(s[0], rest, f);
      MapCons(s[0], s[1..], f);
      assert [s[0]] + s[1..] == s;
    }
  }

  /** Sorting permutes the items, so it permutes any projection of them too. */
  lemma {:induction false} MapSortBy<T, U>(s: seq<T>, le: (T, T) -> bool, f: T -> U)
    ensures multiset(Map(SortBy(s, le), f)) == multiset(Map(s, f))
  {
    if s != [] {
      MapSortBy(s[1..], le, f);
      MapInsertSorted(s[0], SortBy(s[1..], le), le, f);
      assert Map(s, f) == [f(s[0])] + Map(s[1..], f);
    }
  }
}
