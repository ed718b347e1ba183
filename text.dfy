/**
  The Python string operations the label transform relies on, on `string`
  (= seq<char>):
  - `s.replace(pat, '')`      : RemoveAll
  - `s.strip()` / `s.strip(cs)`: Strip, with the set of characters to cut
  - `s.split(sep, maxsplit)`  : SplitN, for a one-character separator
  together with the joins that invert them.
*/
module Text {

  /** `pat` occurs in `s` starting at position `i`. */
  predicate OccursAt(s: string, pat: string, i: int) {
    0 <= i && i + |pat| <= |s| && s[i..i + |pat|] == pat
  }

  /** Python's `s.startswith(pat)`. */
  predicate StartsWith(s: string, pat: string) {
    |pat| <= |s| && s[..|pat|] == pat
  }

  /** `pat` occurs somewhere in `s`. */
  predicate Contains(s: string, pat: string) {
    exists i :: 0 <= i <= |s| && OccursAt(s, pat, i)
  }

  /** The pieces glued together with nothing in between. */
  function Concat(ps: seq<string>): string {
    if ps == [] then [] else ps[0] + Concat(ps[1..])
  }

  /** Python's `sep.join(ps)`. */
  function JoinWith(ps: seq<string>, sep: string): string
    requires |ps| > 0
  {
    if |ps| == 1 then ps[0] else ps[0] + sep + JoinWith(ps[1..], sep)
  }

  /** Unfolds JoinWith once at the front. */
  lemma JoinWithCons(a: string, rest: seq<string>, sep: string)
    requires |rest| > 0
    ensures JoinWith([a] + rest, sep) == a + sep + JoinWith(rest, sep)
  {
    assert ([a] + rest)[1..] == rest;
  }

  lemma {:induction false} JoinWithStartsWithFirst(ps: seq<string>, sep: string)
    requires |ps| > 0
    ensures StartsWith(JoinWith(ps, sep), ps[0])
  {
  }

  // ---------------------------------------------------------------------
  // s.replace(pat, '')
  // ---------------------------------------------------------------------

  /**
    Python's `s.replace(pat, '')`: scanning left to right, every occurrence
    of `pat` that does not overlap an earlier removed one is deleted.
  */
  function RemoveAll(s: string, pat: string): (r: string)
    requires |pat| > 0
    ensures |r| <= |s|
    decreases |s|
  {
    if StartsWith(s, pat) then RemoveAll(s[|pat|..], pat)
    else if s == [] then []
    else [s[0]] + RemoveAll(s[1..], pat)
  }

  /** Python's `s.split(pat)`: the stretches of `s` between the occurrences that RemoveAll deletes. */
  function Pieces(s: string, pat: string): (ps: seq<string>)
    requires |pat| > 0
    ensures |ps| > 0
    decreases |s|
  {
    if StartsWith(s, pat) then [[]] + Pieces(s[|pat|..], pat)
    else if s == [] then [[]]
    else
      var rest := Pieces(s[1..], pat);
      [[s[0]] + rest[0]] + rest[1..]
  }

  /** Occurrences in the tail of `s` are the occurrences in `s` one position on. */
  lemma OccursInTail(s: string, pat: string, i: int)
    requires |s| > 0 && 0 <= i
    ensures OccursAt(s[1..], pat, i) <==> OccursAt(s, pat, i + 1)
  {
    if i + 1 + |pat| <= |s| {
      assert s[i + 1..i + 1 + |pat|] == s[1..][i..i + |pat|];
    }
  }

  /** The empty text contains no non-empty pattern. */
  lemma EmptyContainsNothing(pat: string)
    requires |pat| > 0
    ensures !Contains([], pat)
  {
  }

  /** Joining the pieces with `pat` gives back the text. */
  lemma {:induction false} PiecesJoin(s: string, pat: string)
    requires |pat| > 0
    ensures JoinWith(Pieces(s, pat), pat) == s
    decreases |s|
  {
    if StartsWith(s, pat) {
      var rest := Pieces(s[|pat|..], pat);
      PiecesJoin(s[|pat|..], pat);
      assert Pieces(s, pat) == [[]] + rest;
      JoinWithCons([], rest, pat);
      assert s == pat + s[|pat|..];
    } else if s != [] {
      PiecesJoin(s[1..], pat);
      PiecesJoinKeep(s, pat);
    }
  }

  /** The step of PiecesJoin where the first character is kept. */
  lemma PiecesJoinKeep(s: string, pat: string)
    requires |pat| > 0 && s != [] && !StartsWith(s, pat)
    requires JoinWith(Pieces(s[1..], pat), pat) == s[1..]
    ensures JoinWith(Pieces(s, pat), pat) == s
  {
    var rest := Pieces(s[1..], pat);
    var first := [s[0]] + rest[0];
    assert Pieces(s, pat) == [first] + rest[1..];
    assert s == [s[0]] + s[1..];
    if |rest| > 1 {
      var tail := JoinWith(rest[1..], pat);
      JoinWithCons(first, rest[1..], pat);
      assert rest == [rest[0]] + rest[1..];
      JoinWithCons(rest[0], rest[1..], pat);
      calc {
        JoinWith(Pieces(s, pat), pat);
        first + pat + tail;
        { Associate([s[0]], rest[0], pat, tail); }
        [s[0]] + (rest[0] + pat + tail);
        [s[0]] + s[1..];
      }
    } else {
      assert Pieces(s, pat) == [first];
      assert rest == [rest[0]];
    }
  }

  lemma Associate(a: string, b: string, c: string, d: string)
    ensures (a + b) + c + d == a + (b + c + d)
  {
  }

  /** The pieces glued together are what RemoveAll returns. */
  lemma {:induction false} PiecesConcat(s: string, pat: string)
    requires |pat| > 0
    ensures Concat(Pieces(s, pat)) == RemoveAll(s, pat)
    decreases |s|
  {
    var ps := Pieces(s, pat);
    if StartsWith(s, pat) {
      var rest := Pieces(s[|pat|..], pat);
      PiecesConcat(s[|pat|..], pat);
      assert ps == [[]] + rest && ps[1..] == rest;
    } else if s != [] {
      var rest := Pieces(s[1..], pat);
      PiecesConcat(s[1..], pat);
      var first := [s[0]] + rest[0];
      assert ps == [first] + rest[1..] && ps[1..] == rest[1..];
      assert Concat(ps) == first + Concat(rest[1..]);
      assert Concat(rest) == rest[0] + Concat(rest[1..]);
    }
  }

  /** No piece contains `pat`: the scan found every occurrence it could. */
  lemma {:induction false} PiecesAvoidPattern(s: string, pat: string)
    requires |pat| > 0
    ensures forall k :: 0 <= k < |Pieces(s, pat)| ==> !Contains(Pieces(s, pat)[k], pat)
    decreases |s|
  {
    var ps := Pieces(s, pat);
    EmptyContainsNothing(pat);
    if StartsWith(s, pat) {
      var rest := Pieces(s[|pat|..], pat);
      PiecesAvoidPattern(s[|pat|..], pat);
      assert ps == [[]] + rest;
      forall k | 0 < k < |ps|
        ensures !Contains(ps[k], pat)
      {
        assert ps[k] == rest[k - 1];
      }
    } else if s != [] {
      var rest := Pieces(s[1..], pat);
      PiecesAvoidPattern(s[1..], pat);
      PiecesJoin(s, pat);
      var first := [s[0]] + rest[0];
      assert ps == [first] + rest[1..];
      // the first piece is a prefix of s, so it cannot start with pat; a later
      // occurrence inside it would lie inside rest[0]
      JoinWithStartsWithFirst(ps, pat);
      forall i | 0 <= i <= |first|
        ensures !OccursAt(first, pat, i)
      {
        if i == 0 {
          if |pat| <= |first| {
            assert first[..|pat|] == s[..|pat|];
          }
        } else {
          assert first[1..] == rest[0];
          OccursInTail(first, pat, i - 1);
        }
      }
      forall k | 0 < k < |ps|
        ensures !Contains(ps[k], pat)
      {
        assert ps[k] == rest[k];
      }
    }
  }

  /**
    RemoveAll deletes every occurrence of `pat`: `s` is its pieces joined by
    `pat`, no piece contains `pat`, and the result is the pieces with nothing
    between them.
  */
  lemma RemoveAllDeletesEveryOccurrence(s: string, pat: string)
    requires |pat| > 0
    ensures JoinWith(Pieces(s, pat), pat) == s
    ensures Concat(Pieces(s, pat)) == RemoveAll(s, pat)
    ensures forall k :: 0 <= k < |Pieces(s, pat)| ==> !Contains(Pieces(s, pat)[k], pat)
  {
    PiecesJoin(s, pat);
    PiecesConcat(s, pat);
    PiecesAvoidPattern(s, pat);
  }

  /** Text without an occurrence of `pat` is left unchanged. */
  lemma {:induction false} RemoveAllWithoutOccurrence(s: string, pat: string)
    requires |pat| > 0
    requires !Contains(s, pat)
    ensures RemoveAll(s, pat) == s
    decreases |s|
  {
    if StartsWith(s, pat) {
      assert OccursAt(s, pat, 0);
    } else if s != [] {
      forall i | 0 <= i <= |s[1..]|
        ensures !OccursAt(s[1..], pat, i)
      {
        OccursInTail(s, pat, i);
      }
      RemoveAllWithoutOccurrence(s[1..], pat);
      assert s == [s[0]] + s[1..];
    }
  }

  // ---------------------------------------------------------------------
  // s.strip(cs)
  // ---------------------------------------------------------------------

  /** The number of characters of `cs` at the start of `s`. */
  function LeadCount(s: string, cs: set<char>): (n: nat)
    ensures n <= |s|
    ensures forall k :: 0 <= k < n ==> s[k] in cs
    ensures n < |s| ==> s[n] !in cs
  {
    if |s| > 0 && s[0] in cs then 1 + LeadCount(s[1..], cs) else 0
  }

  /** The number of characters of `cs` at the end of `s`. */
  function TrailCount(s: string, cs: set<char>): (n: nat)
    ensures n <= |s|
    ensures forall k :: |s| - n <= k < |s| ==> s[k] in cs
    ensures n < |s| ==> s[|s| - 1 - n] !in cs
  {
    if |s| > 0 && s[|s| - 1] in cs then 1 + TrailCount(s[..|s| - 1], cs) else 0
  }

  /**
    Python's `s.strip(cs)`: cut the characters of `cs` from both ends. What
    is left neither starts nor ends with one of them.
  */
  function Strip(s: string, cs: set<char>): (r: string)
    ensures |r| <= |s|
    ensures r == [] || (r[0] !in cs && r[|r| - 1] !in cs)
  {
    var t := s[LeadCount(s, cs)..];
    t[..|t| - TrailCount(t, cs)]
  }

  /**
    Strip keeps one contiguous stretch of `s` and cuts only characters of
    `cs` around it; with the ensures of Strip this pins the result down.
  */
  lemma StripBounds(s: string, cs: set<char>) returns (i: nat, j: nat)
    ensures i <= j <= |s| && Strip(s, cs) == s[i..j]
    ensures forall k :: 0 <= k < i ==> s[k] in cs
    ensures forall k :: j <= k < |s| ==> s[k] in cs
  {
    i := LeadCount(s, cs);
    var t := s[i..];
    j := i + |t| - TrailCount(t, cs);
    assert forall k :: j <= k < |s| ==> s[k] == t[k - i];
  }

  /** Stripping twice cuts nothing more. */
  lemma StripIdempotent(s: string, cs: set<char>)
    ensures Strip(Strip(s, cs), cs) == Strip(s, cs)
  {
    var r := Strip(s, cs);
    assert LeadCount(r, cs) == 0;
    assert r[0..] == r;
    assert TrailCount(r, cs) == 0;
  }

  /** Strip gives the empty string exactly when every character of `s` is cut. */
  lemma StripEmptyIff(s: string, cs: set<char>)
    ensures Strip(s, cs) == [] <==> forall k :: 0 <= k < |s| ==> s[k] in cs
  {
    var i, j := StripBounds(s, cs);
    if Strip(s, cs) != [] {
      assert s[i] == Strip(s, cs)[0];
    }
  }

  // ---------------------------------------------------------------------
  // s.split(sep, maxsplit)
  // ---------------------------------------------------------------------

  /** The position of the leftmost `c` in `s`. */
  function IndexOf(s: string, c: char): (i: nat)
    requires c in s
    ensures i < |s| && s[i] == c && c !in s[..i]
  {
    if s[0] == c then 0 else 1 + IndexOf(s[1..], c)
  }

  /** The leftmost `c` is the one with no `c` before it. */
  lemma IndexOfFirst(s: string, c: char, i: nat)
    requires i < |s| && s[i] == c && c !in s[..i]
    ensures IndexOf(s, c) == i
  {
    var j := IndexOf(s, c);
  }

  function Min(a: int, b: int): int {
    if a <= b then a else b
  }

  /**
    Python's `s.split(sep, n)` for a one-character separator: cut at the
    leftmost `n` occurrences of `sep`, at most `n + 1` fields.
  */
  function SplitN(s: string, sep: char, n: nat): (fs: seq<string>)
    ensures 1 <= |fs| <= n + 1
    decreases n
  {
    if n == 0 || sep !in s then [s]
    else
      var i := IndexOf(s, sep);
      [s[..i]] + SplitN(s[i + 1..], sep, n - 1)
  }

  /** Joining the fields of SplitN with `sep` gives back the text. */
  lemma {:induction false} SplitNJoins(s: string, sep: char, n: nat)
    ensures JoinWith(SplitN(s, sep, n), [sep]) == s
    decreases n
  {
    if n == 0 || sep !in s {
      SplitNWhole(s, sep, n);
    } else {
      var i := IndexOf(s, sep);
      var tail := s[i + 1..];
      var m: nat := n - 1;
      SplitNJoins(tail, sep, m);
      SplitNJoinsStep(s, sep, n, i, tail, m);
    }
  }

  /** The step of SplitNJoins: the first field, the separator, and the join of the rest. */
  lemma SplitNJoinsStep(s: string, sep: char, n: nat, i: nat, tail: string, m: nat)
    requires n > 0 && sep in s && i == IndexOf(s, sep) && tail == s[i + 1..] && m == n - 1
    requires JoinWith(SplitN(tail, sep, m), [sep]) == tail
    ensures JoinWith(SplitN(s, sep, n), [sep]) == s
  {
    var head := s[..i];
    var rest := SplitN(tail, sep, m);
    calc {
      JoinWith(SplitN(s, sep, n), [sep]);
      JoinWith([head] + rest, [sep]);
      { JoinWithCons(head, rest, [sep]); }
      head + [sep] + JoinWith(rest, [sep]);
      head + [sep] + tail;
      { Around(s, i); }
      s;
    }
  }

  /** A text is what comes before position `i`, the character there, and what follows. */
  lemma Around(s: string, i: nat)
    requires i < |s|
    ensures s == s[..i] + [s[i]] + s[i + 1..]
  {
  }

  /** Every field of SplitN but the last is free of `sep`. */
  lemma {:induction false} SplitNFieldsFree(s: string, sep: char, n: nat)
    ensures forall k :: 0 <= k < |SplitN(s, sep, n)| - 1 ==> sep !in SplitN(s, sep, n)[k]
    decreases n
  {
    if n > 0 && sep in s {
      var i := IndexOf(s, sep);
      var rest := SplitN(s[i + 1..], sep, n - 1);
      SplitNFieldsFree(s[i + 1..], sep, n - 1);
      var fs := [s[..i]] + rest;
      assert SplitN(s, sep, n) == fs;
      forall k | 0 <= k < |fs| - 1
        ensures sep !in fs[k]
      {
        if k > 0 {
          assert fs[k] == rest[k - 1];
        }
      }
    }
  }

  /**
    SplitN cuts at every occurrence of `sep` up to `n` of them, so there is
    one field more than there are cuts; when fewer than `n + 1` fields come
    out, the last one is free of `sep` too.
  */
  lemma {:induction false} SplitNCount(s: string, sep: char, n: nat)
    ensures |SplitN(s, sep, n)| == Min(multiset(s)[sep], n) + 1
    ensures |SplitN(s, sep, n)| <= n ==> sep !in SplitN(s, sep, n)[|SplitN(s, sep, n)| - 1]
    decreases n
  {
    if n == 0 || sep !in s {
      assert SplitN(s, sep, n) == [s];
      if sep !in s {
        CountAbsent(s, sep);
      }
    } else {
      var i := IndexOf(s, sep);
      var rest := SplitN(s[i + 1..], sep, n - 1);
      SplitNCount(s[i + 1..], sep, n - 1);
      CountAfterFirst(s, sep, i);
      assert SplitN(s, sep, n) == [s[..i]] + rest;
    }
  }

  lemma CountAbsent(s: string, c: char)
    requires c !in s
    ensures multiset(s)[c] == 0
  {
  }

  /** Cutting at the leftmost `sep` leaves one occurrence fewer after the cut. */
  lemma CountAfterFirst(s: string, sep: char, i: nat)
    requires i < |s| && s[i] == sep && sep !in s[..i]
    ensures multiset(s)[sep] == multiset(s[i + 1..])[sep] + 1
  {
    assert s == s[..i] + [sep] + s[i + 1..];
    assert multiset(s) == multiset(s[..i]) + multiset([sep]) + multiset(s[i + 1..]);
    assert multiset(s[..i])[sep] == 0;
  }

  /**
    What SplitN promises: joining the fields with `sep` gives `s` back, every
    field but the last is free of `sep`, there is one field more than there
    are cuts (the occurrences of `sep`, at most `n`), and when fewer than
    `n + 1` fields come out the last one is free of `sep` too.
  */
  lemma SplitNSpec(s: string, sep: char, n: nat)
    ensures JoinWith(SplitN(s, sep, n), [sep]) == s
    ensures forall k :: 0 <= k < |SplitN(s, sep, n)| - 1 ==> sep !in SplitN(s, sep, n)[k]
    ensures |SplitN(s, sep, n)| == Min(multiset(s)[sep], n) + 1
    ensures |SplitN(s, sep, n)| <= n ==> sep !in SplitN(s, sep, n)[|SplitN(s, sep, n)| - 1]
  {
    SplitNJoins(s, sep, n);
    SplitNFieldsFree(s, sep, n);
    SplitNCount(s, sep, n);
  }

  /**
    The other direction of the round trip: fields that SplitN could have
    produced (at most `n + 1`, all but the last free of `sep`, the last free
    of `sep` too when there are at most `n`) come back unchanged from
    splitting their join.
  */
  lemma {:induction false} SplitNJoin(fs: seq<string>, sep: char, n: nat)
    requires 1 <= |fs| <= n + 1
    requires forall k :: 0 <= k < |fs| - 1 ==> sep !in fs[k]
    requires |fs| <= n ==> sep !in fs[|fs| - 1]
    ensures SplitN(JoinWith(fs, [sep]), sep, n) == fs
    decreases n
  {
    if |fs| == 1 {
      assert JoinWith(fs, [sep]) == fs[0];
      SplitNWhole(fs[0], sep, n);
      assert fs == [fs[0]];
    } else {
      var tail := fs[1..];
      var m: nat := n - 1;
      forall k | 0 <= k < |tail| - 1
        ensures sep !in tail[k]
      {
        assert tail[k] == fs[k + 1];
      }
      assert |tail| <= m ==> sep !in tail[|tail| - 1] by {
        assert tail[|tail| - 1] == fs[|fs| - 1];
      }
      SplitNJoin(tail, sep, m);
      SplitNJoinStep(fs, sep, n, tail, m);
    }
  }

  /** The step of SplitNJoin: the first field is cut off whole, ahead of the rest. */
  lemma SplitNJoinStep(fs: seq<string>, sep: char, n: nat, tail: seq<string>, m: nat)
    requires |fs| > 1 && sep !in fs[0] && tail == fs[1..] && n > 0 && m == n - 1
    requires SplitN(JoinWith(tail, [sep]), sep, m) == tail
    ensures SplitN(JoinWith(fs, [sep]), sep, n) == fs
  {
    var head, rest := fs[0], JoinWith(tail, [sep]);
    assert fs == [head] + tail;
    JoinWithCons(head, tail, [sep]);
    SplitNAfterField(head, rest, tail, sep, n);
  }

  /** Text that is not cut comes back as the only field. */
  lemma SplitNWhole(s: string, sep: char, n: nat)
    requires n == 0 || sep !in s
    ensures SplitN(s, sep, n) == [s]
  {
  }

  /** A first field free of `sep` is cut off whole, ahead of the fields of the rest. */
  lemma SplitNAfterField(head: string, tail: string, fields: seq<string>, sep: char, n: nat)
    requires n > 0 && sep !in head && SplitN(tail, sep, n - 1) == fields
    ensures SplitN(head + [sep] + tail, sep, n) == [head] + fields
  {
    var s := head + [sep] + tail;
    assert s[|head|] == sep && s[..|head|] == head;
    IndexOfFirst(s, sep, |head|);
    assert s[|head| + 1..] == tail;
  }
}
