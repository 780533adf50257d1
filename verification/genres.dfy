/**
 Genre extraction: the prompt is lower-cased and every lexicon keyword that
 occurs in it contributes its TMDB genre id; the ids are joined with commas,
 in lexicon order and without removing duplicates.
 */
module Genres {
  import opened Wrappers
  import opened Strings

  /** The keyword table: `(lower-case keyword, genre id)` pairs in dictionary iteration order. */
  type Lexicon = seq<(string, int)>

  /** A dictionary's keys are distinct. */
  predicate DistinctKeywords(lex: Lexicon) {
    forall i, j :: 0 <= i < j < |lex| ==> lex[i].0 != lex[j].0
  }

  predicate Matches(entry: (string, int), lowered: string) {
    Contains(lowered, entry.0)
  }

  /** The entries whose keyword occurs in `lowered`, in lexicon order. */
  function MatchingEntries(lex: Lexicon, lowered: string): (r: Lexicon)
    ensures |r| <= |lex|
    ensures r == [] <==> forall i :: 0 <= i < |lex| ==> !Matches(lex[i], lowered)
    decreases |lex|
  {
    if lex == [] then []
    else
      var rest := MatchingEntries(lex[1..], lowered);
      assert forall i :: 1 <= i < |lex| ==> lex[i] == lex[1..][i - 1];
      if Matches(lex[0], lowered) then [lex[0]] + rest else rest
  }

  /** The genre ids of the entries, in order. */
  function Ids(entries: Lexicon): seq<int> {
    seq(|entries|, k requires 0 <= k < |entries| => entries[k].1)
  }

  /** `[str(genre_id) for ...]`: one comma-free decimal text per entry, reading back as its id. */
  function IdStrings(entries: Lexicon): (parts: seq<string>)
    ensures |parts| == |entries|
    ensures forall k :: 0 <= k < |parts| ==> ParseInt(parts[k]) == Some(entries[k].1) && ',' !in parts[k]
  {
    var parts := seq(|entries|, k requires 0 <= k < |entries| => IntToString(entries[k].1));
    assert forall k :: 0 <= k < |parts| ==> ParseInt(parts[k]) == Some(entries[k].1) && ',' !in parts[k] by {
      forall k | 0 <= k < |parts| ensures ParseInt(parts[k]) == Some(entries[k].1) && ',' !in parts[k] {
        IntToStringRoundTrip(entries[k].1);
        IntToStringNoComma(entries[k].1);
      }
    }
    parts
  }

  /** `extract_genre_ids`: empty exactly when no keyword occurs in the lower-cased prompt. */
  function ExtractGenreIds(prompt: string, lex: Lexicon): (r: string)
    ensures r == [] <==> forall i :: 0 <= i < |lex| ==> !Contains(Lower(prompt), lex[i].0)
  {
    var entries := MatchingEntries(lex, Lower(prompt));
    var parts := IdStrings(entries);
    assert |parts| == 1 ==> parts[0] != [];
    Join(parts, ',')
  }

  // ---------------------------------------------------------------------------
  // Reading the genre string back

  /** Reads a list of ids as the discover endpoint's `with_genres` does: comma separated integers. */
  function ParseIdList(s: string): Option<seq<int>> {
    if s == [] then Some([]) else ParseAll(Split(s, ','))
  }

  function ParseAll(parts: seq<string>): Option<seq<int>>
    decreases |parts|
  {
    if parts == [] then Some([])
    else match (ParseInt(parts[0]), ParseAll(parts[1..]))
      case (Some(x), Some(xs)) => Some([x] + xs)
      case _ => None
  }

  /** Parts that each read back as the matching value read back, together, as the values. */
  lemma {:induction false} ParseAllReads(parts: seq<string>, values: seq<int>)
    requires |parts| == |values|
    requires forall k :: 0 <= k < |parts| ==> ParseInt(parts[k]) == Some(values[k])
    ensures ParseAll(parts) == Some(values)
    decreases |parts|
  {
    if parts != [] {
      assert forall k :: 0 <= k < |parts| - 1 ==> parts[1..][k] == parts[k + 1] && values[1..][k] == values[k + 1];
      ParseAllReads(parts[1..], values[1..]);
      assert [values[0]] + values[1..] == values;
    }
  }

  lemma ParseAllIdStrings(entries: Lexicon)
    ensures ParseAll(IdStrings(entries)) == Some(Ids(entries))
  {
    var parts, ids := IdStrings(entries), Ids(entries);
    assert |ids| == |entries| && forall k :: 0 <= k < |ids| ==> ids[k] == entries[k].1;
    ParseAllReads(parts, ids);
  }

  /** The genre string decodes to exactly the ids of the matching entries, in order. */
  lemma GenreIdsRoundTrip(prompt: string, lex: Lexicon)
    ensures ParseIdList(ExtractGenreIds(prompt, lex)) == Some(Ids(MatchingEntries(lex, Lower(prompt))))
  {
    var entries := MatchingEntries(lex, Lower(prompt));
    var parts := IdStrings(entries);
    if entries != [] {
      forall k | 0 <= k < |parts| ensures ',' !in parts[k] {
        IntToStringNoComma(entries[k].1);
      }
      SplitJoin(parts, ',');
      ParseAllIdStrings(entries);
    } else {
      assert parts == [] && Ids(entries) == [];
    }
  }

  // ---------------------------------------------------------------------------
  // The matching entries are the lexicon filtered, order and multiplicity kept

  /** One step of the filter: the head is kept exactly when it matches. */
  lemma MatchingCons(x: (string, int), rest: Lexicon, lowered: string)
    ensures MatchingEntries([x] + rest, lowered) ==
      (if Matches(x, lowered) then [x] else []) + MatchingEntries(rest, lowered)
  {
    assert ([x] + rest)[0] == x && ([x] + rest)[1..] == rest;
  }

  /** Filtering distributes over concatenation, so lexicon order is kept. */
  lemma {:induction false} MatchingAppend(a: Lexicon, b: Lexicon, lowered: string)
    ensures MatchingEntries(a + b, lowered) == MatchingEntries(a, lowered) + MatchingEntries(b, lowered)
    decreases |a|
  {
    if a == [] {
      assert a + b == b;
    } else {
      var x, tail := a[0], a[1..];
      assert a == [x] + tail;
      Assoc([x], tail, b);
      MatchingCons(x, tail + b, lowered);
      MatchingCons(x, tail, lowered);
      MatchingAppend(tail, b, lowered);
      var head := if Matches(x, lowered) then [x] else [];
      Assoc(head, MatchingEntries(tail, lowered), MatchingEntries(b, lowered));
    }
  }

  lemma Assoc<T>(p: seq<T>, q: seq<T>, r: seq<T>)
    ensures p + (q + r) == (p + q) + r
  {
  }

  /** Each entry is kept as often as it appears when it matches, and dropped otherwise. */
  lemma {:induction false} MatchingCount(lex: Lexicon, lowered: string, e: (string, int))
    ensures multiset(MatchingEntries(lex, lowered))[e] ==
      if Matches(e, lowered) then multiset(lex)[e] else 0
    decreases |lex|
  {
    if lex != [] {
      MatchingCount(lex[1..], lowered, e);
      assert lex == [lex[0]] + lex[1..];
    }
  }

  /** An entry is among the matching entries exactly when it is in the lexicon and matches. */
  lemma MatchingMembers(lex: Lexicon, lowered: string, e: (string, int))
    ensures e in MatchingEntries(lex, lowered) <==> e in lex && Matches(e, lowered)
  {
  }

  lemma {:induction false} DistinctOccursOnce(lex: Lexicon, i: nat)
    requires DistinctKeywords(lex) && i < |lex|
    ensures multiset(lex)[lex[i]] == 1
    decreases |lex|
  {
    assert lex == [lex[0]] + lex[1..];
    if i == 0 {
      assert lex[0] !in lex[1..] by {
        forall j | 0 <= j < |lex[1..]| ensures lex[1..][j] != lex[0] {
          assert lex[1..][j] == lex[j + 1];
        }
      }
    } else {
      assert lex[1..][i - 1] == lex[i];
      DistinctOccursOnce(lex[1..], i - 1);
    }
  }

  /** With distinct keywords, a matching keyword contributes its id once and any other not at all. */
  lemma ContributesOnce(prompt: string, lex: Lexicon, i: nat)
    requires DistinctKeywords(lex) && i < |lex|
    ensures multiset(MatchingEntries(lex, Lower(prompt)))[lex[i]] ==
      if Contains(Lower(prompt), lex[i].0) then 1 else 0
  {
    MatchingCount(lex, Lower(prompt), lex[i]);
    DistinctOccursOnce(lex, i);
  }

  /** The match is case-insensitive: the prompt and its lower-cased form give the same ids. */
  lemma GenreIdsIgnoreCase(prompt: string, lex: Lexicon)
    ensures ExtractGenreIds(Lower(prompt), lex) == ExtractGenreIds(prompt, lex)
  {
    LowerIdempotent(prompt);
  }
}
