/**
 * The echo of the price fields: `value.replace(/\B(?=(\d{3})+(?!\d))/g, ",")`.
 * Without the `u` flag JavaScript's `\d` is [0-9] and its word characters are
 * [A-Za-z0-9_], so the replacement is modelled exactly, on every string.
 */
module Grouping {

  predicate IsDigit(c: char) {
    '0' <= c <= '9'
  }

  /** The characters of `\w`. */
  predicate IsWordChar(c: char) {
    'a' <= c <= 'z' || 'A' <= c <= 'Z' || IsDigit(c) || c == '_'
  }

  predicate AllDigits(s: string) {
    forall i :: 0 <= i < |s| ==> IsDigit(s[i])
  }

  /** Length of the run of digits that `s` starts with. */
  function LeadingDigits(s: string): (n: nat)
    ensures n <= |s|
  {
    if s != [] && IsDigit(s[0]) then 1 + LeadingDigits(s[1..]) else 0
  }

  /** The run is made of digits and is maximal. */
  lemma {:induction false} LeadingDigitsSpec(s: string)
    ensures AllDigits(s[..LeadingDigits(s)])
    ensures LeadingDigits(s) == |s| || !IsDigit(s[LeadingDigits(s)])
  {
    if s != [] && IsDigit(s[0]) {
      LeadingDigitsSpec(s[1..]);
      var n := LeadingDigits(s);
      assert forall j :: 1 <= j < n ==> s[..n][j] == s[1..][..n - 1][j - 1];
    }
  }

  /** `\B` at position `p`: the characters on both sides are both word characters or both not. */
  predicate NotAtBoundary(s: string, p: nat)
    requires p <= |s|
  {
    (p > 0 && IsWordChar(s[p - 1])) == (p < |s| && IsWordChar(s[p]))
  }

  /**
   * The whole pattern matches (empty) at `p`: `\B` holds and, by `(\d{3})+(?!\d)`, the
   * digits from `p` on form a run whose length is a positive multiple of three.
   */
  predicate SeparatorAt(s: string, p: nat)
    requires p <= |s|
    ensures SeparatorAt(s, p) ==> 0 < p < |s| && IsDigit(s[p]) && IsWordChar(s[p - 1])
  {
    NotAtBoundary(s, p) && var d := LeadingDigits(s[p..]); d >= 3 && d % 3 == 0
  }

  /** `(\d{3})+(?!\d)` matches at `p` with `k` groups: `3k` digits follow `p`, then no digit. */
  predicate GroupRunAt(s: string, p: nat, k: int) {
    k >= 1 && p + 3 * k <= |s| && AllDigits(s[p..p + 3 * k]) && (p + 3 * k == |s| || !IsDigit(s[p + 3 * k]))
  }

  /** `SeparatorAt` is the pattern as written: `\B`, then one or more groups of three digits not followed by a digit. */
  lemma SeparatorAtPattern(s: string, p: nat)
    requires p <= |s|
    ensures SeparatorAt(s, p) <==> NotAtBoundary(s, p) && exists k :: GroupRunAt(s, p, k)
  {
    var t := s[p..];
    var d := LeadingDigits(t);
    LeadingDigitsSpec(t);
    if d >= 3 && d % 3 == 0 {
      var k := d / 3;
      assert s[p..p + 3 * k] == t[..d];
      assert p + 3 * k < |s| ==> s[p + 3 * k] == t[d];
      assert GroupRunAt(s, p, k);
    }
    if exists k :: GroupRunAt(s, p, k) {
      var k :| GroupRunAt(s, p, k);
      assert t[..3 * k] == s[p..p + 3 * k];
      assert 3 * k < |t| ==> t[3 * k] == s[p + 3 * k];
      LeadingDigitsExact(t, 3 * k);
    }
  }

  /** A run of `m` digits followed by the end or a non-digit has length exactly `m`. */
  lemma {:induction false} LeadingDigitsExact(t: string, m: nat)
    requires m <= |t| && AllDigits(t[..m])
    requires m == |t| || !IsDigit(t[m])
    ensures LeadingDigits(t) == m
  {
    if m > 0 {
      assert IsDigit(t[..m][0]);
      var u := t[1..][..m - 1];
      forall j | 0 <= j < |u| ensures IsDigit(u[j]) {
        assert u[j] == t[..m][j + 1];
      }
      assert m - 1 < |t| - 1 ==> t[1..][m - 1] == t[m];
      LeadingDigitsExact(t[1..], m - 1);
    }
  }

  /** The output for position `p`: a comma when the pattern matches there, then `s[p]`. */
  function Piece(s: string, p: nat): string
    requires p < |s|
  {
    (if SeparatorAt(s, p) then "," else "") + [s[p]]
  }

  /** The output for positions `lo` up to (not including) `hi`. */
  function Emit(s: string, lo: nat, hi: nat): (r: string)
    requires lo <= hi <= |s|
    ensures hi - lo <= |r| <= 2 * (hi - lo)
    decreases hi - lo
  {
    if lo == hi then "" else Piece(s, lo) + Emit(s, lo + 1, hi)
  }

  /** The global replacement: a comma at every position where the pattern matches, the end included. */
  function GroupThousands(s: string): (r: string)
    ensures |s| <= |r| <= 2 * |s|
  {
    Emit(s, 0, |s|) + (if SeparatorAt(s, |s|) then "," else "")
  }

  /** The right-to-left grouping of a digit string into threes, as it is usually defined. */
  function GroupDigits(s: string): string
    decreases |s|
  {
    if |s| <= 3 then s else GroupDigits(s[..|s| - 3]) + "," + s[|s| - 3..]
  }

  /** Removes every comma. */
  function Ungroup(s: string): (r: string)
    ensures |r| <= |s|
  {
    if s == [] then [] else (if s[0] == ',' then [] else [s[0]]) + Ungroup(s[1..])
  }

  lemma {:induction false} UngroupAppend(a: string, b: string)
    ensures Ungroup(a + b) == Ungroup(a) + Ungroup(b)
  {
    if a == [] {
      assert a + b == b;
    } else {
      assert (a + b)[0] == a[0] && (a + b)[1..] == a[1..] + b;
      UngroupAppend(a[1..], b);
    }
  }

  /** The pattern never matches at the end of the string: nothing is appended. */
  lemma NoSeparatorAtEnd(s: string)
    ensures GroupThousands(s) == Emit(s, 0, |s|)
  {
    assert s[|s|..] == [];
  }

  /** Emitting a range is emitting its two halves. */
  lemma {:induction false} EmitSplit(s: string, lo: nat, mid: nat, hi: nat)
    requires lo <= mid <= hi <= |s|
    ensures Emit(s, lo, hi) == Emit(s, lo, mid) + Emit(s, mid, hi)
    decreases mid - lo
  {
    if lo < mid {
      EmitSplit(s, lo + 1, mid, hi);
    }
  }

  /** Where the pattern never matches, the text comes out unchanged. */
  lemma {:induction false} EmitNoSeparator(s: string, lo: nat, hi: nat)
    requires lo <= hi <= |s|
    requires forall p :: lo <= p < hi ==> !SeparatorAt(s, p)
    ensures Emit(s, lo, hi) == s[lo..hi]
    decreases hi - lo
  {
    if lo < hi {
      EmitNoSeparator(s, lo + 1, hi);
      assert s[lo..hi] == [s[lo]] + s[lo + 1..hi];
    }
  }

  /** Two strings whose pieces agree on a range emit the same text there. */
  lemma {:induction false} EmitAgree(s: string, t: string, lo: nat, hi: nat)
    requires lo <= hi <= |s| && hi <= |t|
    requires forall p :: lo <= p < hi ==> Piece(s, p) == Piece(t, p)
    ensures Emit(s, lo, hi) == Emit(t, lo, hi)
    decreases hi - lo
  {
    if lo < hi {
      EmitAgree(s, t, lo + 1, hi);
    }
  }

  /** Removing the commas from the output gives back any input that had none. */
  lemma {:induction false} EmitUngroup(s: string, lo: nat, hi: nat)
    requires lo <= hi <= |s|
    requires forall i :: lo <= i < hi ==> s[i] != ','
    ensures Ungroup(Emit(s, lo, hi)) == s[lo..hi]
    decreases hi - lo
  {
    if lo < hi {
      assert Ungroup(Emit(s, lo, hi)) == [s[lo]] + Ungroup(Emit(s, lo + 1, hi)) by {
        UngroupAppend(Piece(s, lo), Emit(s, lo + 1, hi));
        UngroupPiece(s, lo);
      }
      EmitUngroup(s, lo + 1, hi);
      assert s[lo..hi] == [s[lo]] + s[lo + 1..hi];
    }
  }

  /** Removing commas from one piece leaves its character, when that is not itself a comma. */
  lemma UngroupPiece(s: string, p: nat)
    requires p < |s| && s[p] != ','
    ensures Ungroup(Piece(s, p)) == [s[p]]
  {
    if SeparatorAt(s, p) {
      UngroupAppend(",", [s[p]]);
    }
  }

  /** Formatting only inserts commas: removing them restores an input that had none. */
  lemma UngroupGroupThousands(s: string)
    requires forall i :: 0 <= i < |s| ==> s[i] != ','
    ensures Ungroup(GroupThousands(s)) == s
  {
    NoSeparatorAtEnd(s);
    EmitUngroup(s, 0, |s|);
  }

  lemma {:induction false} LeadingDigitsOfDigits(s: string)
    requires AllDigits(s)
    ensures LeadingDigits(s) == |s|
  {
    if s != [] {
      LeadingDigitsOfDigits(s[1..]);
    }
  }

  /**
   * On a string of digits a comma goes before exactly the positions that are not the
   * first and have a positive multiple of three digits to their right.
   */
  lemma DigitSeparators(s: string, p: nat)
    requires AllDigits(s) && p <= |s|
    ensures SeparatorAt(s, p) <==> 0 < p < |s| && (|s| - p) % 3 == 0
  {
    LeadingDigitsOfDigits(s[p..]);
  }

  /** A position before the last three digits has the same piece in the shortened string. */
  lemma PrefixPiece(s: string, p: nat)
    requires AllDigits(s) && p < |s| - 3
    ensures Piece(s, p) == Piece(s[..|s| - 3], p)
  {
    var t := s[..|s| - 3];
    DigitSeparators(s, p);
    DigitSeparators(t, p);
    SameResidue(|s| - p);
  }

  lemma SameResidue(a: int)
    ensures a % 3 == (a - 3) % 3
  {
  }

  /** Dropping the last three digits leaves the earlier positions' output as it was. */
  lemma DigitsPrefixAgree(s: string)
    requires AllDigits(s) && |s| > 3
    ensures AllDigits(s[..|s| - 3])
    ensures Emit(s, 0, |s| - 3) == Emit(s[..|s| - 3], 0, |s| - 3)
  {
    var n := |s|;
    var t := s[..n - 3];
    assert AllDigits(t);
    forall p | 0 <= p < n - 3 ensures Piece(s, p) == Piece(t, p) {
      PrefixPiece(s, p);
    }
    EmitAgree(s, t, 0, n - 3);
  }

  /** The last three digits come out as a comma followed by those digits. */
  lemma DigitsLastGroup(s: string)
    requires AllDigits(s) && |s| > 3
    ensures Emit(s, |s| - 3, |s|) == "," + s[|s| - 3..]
  {
    var n := |s|;
    EmitThree(s, n - 3);
    PieceOfDigits(s, n - 3);
    PieceOfDigits(s, n - 2);
    PieceOfDigits(s, n - 1);
    assert s[n - 3..] == [s[n - 3]] + [s[n - 2]] + [s[n - 1]];
  }

  /** The output for three consecutive positions is their three pieces. */
  lemma EmitThree(s: string, lo: nat)
    requires lo + 3 <= |s|
    ensures Emit(s, lo, lo + 3) == Piece(s, lo) + Piece(s, lo + 1) + Piece(s, lo + 2)
  {
    assert Emit(s, lo + 3, lo + 3) == [];
    assert Emit(s, lo + 2, lo + 3) == Piece(s, lo + 2);
    assert Emit(s, lo + 1, lo + 3) == Piece(s, lo + 1) + Piece(s, lo + 2);
  }

  /** In a string of digits the piece at `p` has a comma exactly where a group of three starts. */
  lemma PieceOfDigits(s: string, p: nat)
    requires AllDigits(s) && p < |s|
    ensures Piece(s, p) == if 0 < p && (|s| - p) % 3 == 0 then "," + [s[p]] else [s[p]]
  {
    DigitSeparators(s, p);
  }

  /** Up to three digits come out unchanged. */
  lemma ShortDigits(s: string)
    requires AllDigits(s) && |s| <= 3
    ensures Emit(s, 0, |s|) == s
  {
    forall p | 0 <= p < |s| ensures !SeparatorAt(s, p) {
      DigitSeparators(s, p);
    }
    EmitNoSeparator(s, 0, |s|);
    assert s[0..|s|] == s;
  }

  /** On a string of digits the regular expression computes the usual grouping into threes. */
  lemma {:induction false} GroupThousandsOfDigits(s: string)
    requires AllDigits(s)
    ensures GroupThousands(s) == GroupDigits(s)
    decreases |s|
  {
    var n := |s|;
    if n <= 3 {
      NoSeparatorAtEnd(s);
      ShortDigits(s);
    } else {
      var t := s[..n - 3];
      GroupThousandsLastGroup(s);
      GroupThousandsOfDigits(t);
      assert GroupDigits(s) == GroupDigits(t) + "," + s[n - 3..];
    }
  }

  /** The output for a string of more than three digits is that of all but its last three, a comma, and those three. */
  lemma GroupThousandsLastGroup(s: string)
    requires AllDigits(s) && |s| > 3
    ensures AllDigits(s[..|s| - 3])
    ensures GroupThousands(s) == GroupThousands(s[..|s| - 3]) + "," + s[|s| - 3..]
  {
    var n := |s|;
    var t := s[..n - 3];
    DigitsPrefixAgree(s);
    assert GroupThousands(t) == Emit(s, 0, n - 3) by {
      NoSeparatorAtEnd(t);
    }
    assert GroupThousands(s) == Emit(s, 0, n - 3) + Emit(s, n - 3, n) by {
      NoSeparatorAtEnd(s);
      EmitSplit(s, 0, n - 3, n);
    }
    DigitsLastGroup(s);
  }

  /** The echo of a typical price. */
  lemma GroupingExample()
    ensures GroupThousands("25000") == "25,000"
  {
    GroupThousandsOfDigits("25000");
    assert "25000"[..2] == "25" && "25000"[2..] == "000";
  }

  /** The echo of a seven-digit price. */
  lemma GroupingExampleMillions()
    ensures GroupThousands("1234567") == "1,234,567"
  {
    GroupThousandsOfDigits("1234567");
    assert "1234567"[..4] == "1234" && "1234567"[4..] == "567";
    assert "1234"[..1] == "1" && "1234"[1..] == "234";
  }
}
