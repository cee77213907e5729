/** Small shared vocabulary: optional values, results with an error side,
    and a case-insensitive substring match in the manner of the ORM's
    `icontains` lookup on SQLite, whose LIKE folds ASCII letters only. */
module Common {

  datatype Option<+T> = None | Some(value: T)

  datatype Result<+T, +E> = Success(value: T) | Failure(error: E)

  /** ASCII lower-casing of one character; other characters are left alone. */
  function LowerChar(c: char): (r: char)
    ensures 'A' <= c <= 'Z' ==> r as int == c as int + 32
    ensures !('A' <= c <= 'Z') ==> r == c
  {
    if 'A' <= c <= 'Z' then (c as int + 32) as char else c
  }

  function Lower(s: string): (r: string)
    ensures |r| == |s|
    ensures forall i :: 0 <= i < |s| ==> r[i] == LowerChar(s[i])
  {
    if s == [] then [] else [LowerChar(s[0])] + Lower(s[1..])
  }

  /** `needle` occurs in `hay` starting at offset `i`. */
  predicate OccursAt(needle: string, hay: string, i: int)
  {
    0 <= i && i + |needle| <= |hay| && hay[i..i + |needle|] == needle
  }

  /** `needle` occurs in `hay` at some offset. */
  predicate IsSubstring(needle: string, hay: string)
  {
    exists i :: 0 <= i <= |hay| && OccursAt(needle, hay, i)
  }

  /** The `icontains` lookup as SQLite's LIKE performs it: `query` is a
      substring of `text`, ignoring the case of ASCII letters only. */
  predicate ContainsIgnoreCase(text: string, query: string)
  {
    IsSubstring(Lower(query), Lower(text))
  }

  /** The empty query matches every text, a query longer than the text
      matches none, and a query that occurs as written matches. */
  lemma ContainsIgnoreCaseBounds(text: string, query: string)
    ensures query == [] ==> ContainsIgnoreCase(text, query)
    ensures |query| > |text| ==> !ContainsIgnoreCase(text, query)
    ensures IsSubstring(query, text) ==> ContainsIgnoreCase(text, query)
  {
    if query == [] {
      assert OccursAt(Lower(query), Lower(text), 0);
    }
    if IsSubstring(query, text) {
      var i :| 0 <= i <= |text| && OccursAt(query, text, i);
      forall j | 0 <= j < |query|
        ensures Lower(text)[i..i + |query|][j] == Lower(query)[j]
      {
        assert text[i + j] == query[j];
      }
      assert OccursAt(Lower(query), Lower(text), i);
    }
  }

  /** The slice `[:n]` of a query set. */
  function Take<T>(s: seq<T>, n: nat): (r: seq<T>)
    ensures |r| == (if |s| <= n then |s| else n)
    ensures r == s[..|r|]
  {
    if |s| <= n then s else s[..n]
  }

  /** The rows of a query set that satisfy a filter, in their original order. */
  function Filter<T>(s: seq<T>, p: T -> bool): (r: seq<T>)
    ensures |r| <= |s|
  {
    if s == [] then []
    else Filter(s[..|s| - 1], p) + (if p(s[|s| - 1]) then [s[|s| - 1]] else [])
  }

  /** The rows `Filter` keeps are exactly the rows that satisfy the filter. */
  lemma {:induction false} FilterMembers<T>(s: seq<T>, p: T -> bool)
    ensures forall i :: 0 <= i < |Filter(s, p)| ==> Filter(s, p)[i] in s && p(Filter(s, p)[i])
    ensures forall i :: 0 <= i < |s| && p(s[i]) ==> s[i] in Filter(s, p)
  {
    if s != [] {
      FilterMembers(s[..|s| - 1], p);
      forall i | 0 <= i < |s| - 1
        ensures s[..|s| - 1][i] == s[i]
      {
      }
    }
  }

  /** Filtering a prefix one element longer adds at most that element. */
  lemma FilterSnoc<T>(s: seq<T>, i: nat, p: T -> bool)
    requires i < |s|
    ensures Filter(s[..i + 1], p) == Filter(s[..i], p) + (if p(s[i]) then [s[i]] else [])
  {
    assert s[..i + 1][..i] == s[..i];
  }

  /** `Filter` on a two-row query set. */
  lemma FilterPair<T>(a: T, b: T, p: T -> bool)
    ensures Filter([a, b], p) == (if p(a) then [a] else []) + (if p(b) then [b] else [])
  {
    assert [a, b][..1] == [a];
    assert [a][..0] == [];
  }
}
