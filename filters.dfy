/** The title list filter: four optional lookups combined with "and". */
module Filters {
  import opened Base

  /**
   * What the filter sees of a title: its key, its category's slug, the slug
   * of each genre it is linked to (one entry per link), its name and year.
   */
  datatype TitleRecord = TitleRecord(id: nat, category: string, genres: seq<string>, name: string, year: int)

  /** The four filter parameters; any other query parameter is ignored. */
  datatype Query = Query(category: Option<string>, genre: Option<string>, name: Option<string>, year: Option<int>)

  /** A text parameter filters only when present and non-empty. */
  predicate Given(v: Option<string>)
  {
    v.Some? && v.value != []
  }

  /** ASCII lower case. */
  function Lower(c: char): char
  {
    if 'A' <= c <= 'Z' then (c as int + 32) as char else c
  }

  /**
   * ASCII lower-casing: the length is kept, no upper-case ASCII letter is
   * left, and every character that is not one stays as it was.
   */
  function LowerString(s: string): (r: string)
    ensures |r| == |s|
    ensures forall i | 0 <= i < |r| :: !('A' <= r[i] <= 'Z')
    ensures forall i | 0 <= i < |s| && !('A' <= s[i] <= 'Z') :: r[i] == s[i]
    ensures forall i | 0 <= i < |s| && 'A' <= s[i] <= 'Z' :: r[i] as int == s[i] as int + 32
  {
    seq(|s|, i requires 0 <= i < |s| => Lower(s[i]))
  }

  /** Lower-casing twice is lower-casing once. */
  lemma LowerStringIdempotent(s: string)
    ensures LowerString(LowerString(s)) == LowerString(s)
  {
    var once := LowerString(s);
    assert forall i | 0 <= i < |once| :: Lower(once[i]) == once[i];
  }

  /**
   * The `icontains` lookup is blind to case on both sides: lower-casing
   * the name or the searched text first changes nothing, every name
   * contains itself, and the empty text is contained in every name.
   */
  lemma ContainsIgnoringCaseIsCaseBlind(s: string, sub: string)
    ensures ContainsIgnoringCase(s, sub) <==> ContainsIgnoringCase(LowerString(s), sub)
    ensures ContainsIgnoringCase(s, sub) <==> ContainsIgnoringCase(s, LowerString(sub))
    ensures ContainsIgnoringCase(s, s) && ContainsIgnoringCase(s, [])
  {
    LowerStringIdempotent(s);
    LowerStringIdempotent(sub);
    assert OccursAt(LowerString(s), LowerString(s), 0);
    assert OccursAt(LowerString(s), LowerString([]), 0);
  }

  /** `sub` occurs in `s` at position `i`. */
  predicate OccursAt(s: string, sub: string, i: nat)
  {
    i + |sub| <= |s| && s[i..i + |sub|] == sub
  }

  /** The `icontains` lookup: `sub` occurs in `s` when case is ignored. */
  predicate ContainsIgnoringCase(s: string, sub: string)
  {
    exists i: nat | i <= |s| :: OccursAt(LowerString(s), LowerString(sub), i)
  }

  /** A title meets every parameter that is given. */
  predicate Matches(t: TitleRecord, q: Query)
    ensures (!Given(q.category) && !Given(q.genre) && !Given(q.name) && q.year.None?) ==> Matches(t, q)
    ensures Matches(t, q) && Given(q.name) ==> |q.name.value| <= |t.name|
  {
    && (Given(q.category) ==> t.category == q.category.value)
    && (Given(q.genre) ==> q.genre.value in t.genres)
    && (Given(q.name) ==> ContainsIgnoringCase(t.name, q.name.value))
    && (q.year.Some? ==> t.year == q.year.value)
  }

  /** How often `x` occurs in `s`. */
  function Count(s: seq<string>, x: string): (n: nat)
    ensures n > 0 <==> x in s
    ensures n <= |s|
  {
    if s == [] then 0 else (if s[0] == x then 1 else 0) + Count(s[1..], x)
  }

  /**
   * The rows one title contributes to the filtered query: none when a
   * parameter fails, and with a genre given one per genre link that
   * matches, since the lookup joins the link table. The title list's
   * queryset is annotated with an average and so grouped by title, which
   * folds those rows into one; with unique genre slugs there is at most
   * one anyway (`ApplyIsKeep`).
   */
  function Rows(t: TitleRecord, q: Query): (n: nat)
    ensures n > 0 <==> Matches(t, q)
  {
    if (Given(q.category) && t.category != q.category.value)
      || (Given(q.name) && !ContainsIgnoringCase(t.name, q.name.value))
      || (q.year.Some? && t.year != q.year.value)
    then 0
    else if Given(q.genre) then Count(t.genres, q.genre.value)
    else 1
  }

  function Repeat(t: TitleRecord, n: nat): (r: seq<TitleRecord>)
    ensures |r| == n && forall i | 0 <= i < n :: r[i] == t
  {
    if n == 0 then [] else [t] + Repeat(t, n - 1)
  }

  /**
   * `TitlesFilter` applied to a list of titles, in order: exactly the titles
   * meeting every given parameter come out, so the result never holds a
   * title that was not in the input.
   */
  function Apply(ts: seq<TitleRecord>, q: Query): (r: seq<TitleRecord>)
    ensures forall t :: t in r <==> t in ts && Matches(t, q)
  {
    if ts == [] then [] else Repeat(ts[0], Rows(ts[0], q)) + Apply(ts[1..], q)
  }

  /** The reference reading: keep each title once when it meets every parameter. */
  function Keep(ts: seq<TitleRecord>, q: Query): (r: seq<TitleRecord>)
    ensures forall t :: t in r <==> t in ts && Matches(t, q)
  {
    if ts == [] then [] else (if Matches(ts[0], q) then [ts[0]] else []) + Keep(ts[1..], q)
  }

  /** The records' keys strictly increase along the list. */
  predicate IdsAscending(ts: seq<TitleRecord>)
  {
    forall i, j | 0 <= i < j < |ts| :: ts[i].id < ts[j].id
  }

  /** Keeping some records of a list in key order leaves them in key order. */
  lemma {:induction false} KeepKeepsOrder(ts: seq<TitleRecord>, q: Query)
    requires IdsAscending(ts)
    ensures IdsAscending(Keep(ts, q))
  {
    if ts != [] {
      var rest := ts[1..];
      assert IdsAscending(rest) by {
        forall i, j | 0 <= i < j < |rest| ensures rest[i].id < rest[j].id {
          assert rest[i] == ts[i + 1] && rest[j] == ts[j + 1];
        }
      }
      KeepKeepsOrder(rest, q);
      forall x | x in Keep(rest, q)
        ensures ts[0].id < x.id
      {
        var j :| 0 <= j < |rest| && rest[j] == x;
        assert rest[j] == ts[j + 1];
      }
    }
  }

  predicate NoDuplicates(s: seq<string>)
  {
    forall i, j | 0 <= i < j < |s| :: s[i] != s[j]
  }

  lemma {:induction false} CountWithoutDuplicates(s: seq<string>, x: string)
    requires NoDuplicates(s)
    ensures Count(s, x) <= 1
  {
    if s != [] {
      assert NoDuplicates(s[1..]) by {
        forall i, j | 0 <= i < j < |s[1..]| ensures s[1..][i] != s[1..][j] {
          assert s[1..][i] == s[i + 1] && s[1..][j] == s[j + 1];
        }
      }
      CountWithoutDuplicates(s[1..], x);
      if s[0] == x {
        assert x !in s[1..] by {
          forall j | 0 <= j < |s[1..]| ensures s[1..][j] != x {
            assert s[1..][j] == s[j + 1];
          }
        }
      }
    }
  }

  /**
   * When no title is linked twice to genres of one slug (genre slugs are
   * unique), the genre join yields each title at most once and the filter
   * is exactly the reference reading.
   */
  lemma {:induction false} ApplyIsKeep(ts: seq<TitleRecord>, q: Query)
    requires forall i | 0 <= i < |ts| :: NoDuplicates(ts[i].genres)
    ensures Apply(ts, q) == Keep(ts, q)
  {
    if ts != [] {
      if Given(q.genre) {
        CountWithoutDuplicates(ts[0].genres, q.genre.value);
      }
      assert Repeat(ts[0], Rows(ts[0], q)) == (if Matches(ts[0], q) then [ts[0]] else []);
      ApplyIsKeep(ts[1..], q);
    }
  }

  /** With no parameter given, or only empty ones, nothing is filtered out. */
  lemma {:induction false} NoParametersKeepsAll(ts: seq<TitleRecord>, q: Query)
    requires !Given(q.category) && !Given(q.genre) && !Given(q.name) && q.year.None?
    ensures Apply(ts, q) == ts
  {
    if ts != [] {
      NoParametersKeepsAll(ts[1..], q);
      assert ts == [ts[0]] + ts[1..];
    }
  }
}
