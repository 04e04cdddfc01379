/**
 * The thermostat name key: `regex.exec(key)` for the unanchored pattern
 * `/cust_C(\d+)_T(\d+)_name/`. `exec` returns the leftmost match; at a
 * given start the two digit groups are the maximal runs of digits there,
 * since each is followed by a character that is not a digit, so
 * backtracking to a shorter run can never succeed.
 */
module KeyPattern {
  import opened Optional
  import opened Decimal

  /** The two captured digit strings: controller and thermostat. */
  datatype KeyMatch = KeyMatch(controller: string, thermostat: string)

  /** The text the pattern matches for the given captures. */
  function PatternText(c: string, t: string): string {
    "cust_C" + c + "_T" + t + "_name"
  }

  /** Reference definition: the pattern, with captures c and t, occurs in `key` at `p`. */
  ghost predicate PatternAt(key: string, p: int, c: string, t: string) {
    && 0 <= p
    && |c| > 0 && AllDigits(c)
    && |t| > 0 && AllDigits(t)
    && p + |PatternText(c, t)| <= |key|
    && key[p..p + |PatternText(c, t)|] == PatternText(c, t)
  }

  /** Length of the maximal run of digits starting at `j`. */
  function DigitRun(key: string, j: nat): (n: nat)
    requires j <= |key|
    ensures j + n <= |key|
    ensures AllDigits(key[j..j + n])
    ensures j + n == |key| || !IsDigit(key[j + n])
    decreases |key| - j
  {
    if j < |key| && IsDigit(key[j]) then
      var n := 1 + DigitRun(key, j + 1);
      assert key[j..j + n] == [key[j]] + key[j + 1..j + n];
      n
    else 0
  }

  /** The literal `lit` occurs in `key` at `i`. */
  predicate HasAt(key: string, i: nat, lit: string) {
    i + |lit| <= |key| && key[i..i + |lit|] == lit
  }

  /** The match of the pattern starting exactly at `p`, if there is one. */
  function MatchAt(key: string, p: nat): (r: Option<KeyMatch>)
    ensures r.Some? ==> |r.value.controller| > 0 && AllDigits(r.value.controller) &&
                          |r.value.thermostat| > 0 && AllDigits(r.value.thermostat)
  {
    if HasAt(key, p, "cust_C") then MatchGroups(key, p + 6) else None
  }

  /** After `cust_C` at `j`: the controller digits, then `_T`. */
  function MatchGroups(key: string, j: nat): (r: Option<KeyMatch>)
    requires j <= |key|
    ensures r.Some? ==> |r.value.controller| > 0 && AllDigits(r.value.controller) &&
                          |r.value.thermostat| > 0 && AllDigits(r.value.thermostat)
  {
    var n := DigitRun(key, j);
    if n > 0 && HasAt(key, j + n, "_T") then MatchThermostat(key, j, n) else None
  }

  /** After `_T`: the thermostat digits, then `_name`. */
  function MatchThermostat(key: string, j: nat, n: nat): (r: Option<KeyMatch>)
    requires j + n + 2 <= |key|
    requires n > 0 && AllDigits(key[j..j + n])
    ensures r.Some? ==> |r.value.controller| > 0 && AllDigits(r.value.controller) &&
                          |r.value.thermostat| > 0 && AllDigits(r.value.thermostat)
  {
    var k := j + n + 2;
    var m := DigitRun(key, k);
    if m > 0 && HasAt(key, k + m, "_name") then Some(KeyMatch(key[j..j + n], key[k..k + m]))
    else None
  }

  /** The leftmost match starting at `p` or later. */
  function FirstMatchFrom(key: string, p: nat): (r: Option<KeyMatch>)
    requires p <= |key|
    ensures r.None? ==> forall q :: p <= q <= |key| ==> MatchAt(key, q).None?
    ensures r.Some? ==> exists q :: p <= q <= |key| && MatchAt(key, q) == r &&
                                    forall q' :: p <= q' < q ==> MatchAt(key, q').None?
    ensures r.Some? ==> |r.value.controller| > 0 && AllDigits(r.value.controller) &&
                          |r.value.thermostat| > 0 && AllDigits(r.value.thermostat)
    decreases |key| - p
  {
    var here := MatchAt(key, p);
    if here.Some? then here
    else if p == |key| then None
    else
      var r := FirstMatchFrom(key, p + 1);
      assert r.Some? ==> exists q :: p <= q <= |key| && MatchAt(key, q) == r &&
                                     forall q' :: p <= q' < q ==> MatchAt(key, q').None? by {
        if r.Some? {
          var q :| p + 1 <= q <= |key| && MatchAt(key, q) == r &&
                   forall q' :: p + 1 <= q' < q ==> MatchAt(key, q').None?;
          assert forall q' :: p <= q' < q ==> MatchAt(key, q').None?;
        }
      }
      r
  }

  /** `regex.exec(key)`: the captures of the leftmost match, or no match. */
  function FirstMatch(key: string): (r: Option<KeyMatch>)
    ensures r.Some? ==> |r.value.controller| > 0 && AllDigits(r.value.controller) &&
                          |r.value.thermostat| > 0 && AllDigits(r.value.thermostat)
  {
    FirstMatchFrom(key, 0)
  }

  /** The runs of digits captured at a position are determined by the position. */
  lemma MatchAtIff(key: string, p: nat, c: string, t: string)
    ensures MatchAt(key, p) == Some(KeyMatch(c, t)) <==> PatternAt(key, p, c, t)
  {
    if PatternAt(key, p, c, t) {
      PatternAtMatches(key, p, c, t);
    }
    if MatchAt(key, p) == Some(KeyMatch(c, t)) {
      MatchIsPattern(key, p, c, t);
    }
  }

  lemma PatternAtMatches(key: string, p: nat, c: string, t: string)
    requires PatternAt(key, p, c, t)
    ensures MatchAt(key, p) == Some(KeyMatch(c, t))
  {
    var text := PatternText(c, t);
    PatternTextParts(c, t);
    var j := p + 6;
    var k := j + |c| + 2;
    SliceOfOccurrence(key, p, text, 0, 6);
    SliceOfOccurrence(key, p, text, 6, 6 + |c|);
    SliceOfOccurrence(key, p, text, 6 + |c|, 8 + |c|);
    SliceOfOccurrence(key, p, text, 8 + |c|, 8 + |c| + |t|);
    SliceOfOccurrence(key, p, text, 8 + |c| + |t|, |text|);
    PartsMatch(key, p, c, t);
  }

  /** The pattern's pieces laid out one after the other from `p`. */
  ghost predicate PartsAt(key: string, p: nat, c: string, t: string) {
    && |c| > 0 && AllDigits(c)
    && |t| > 0 && AllDigits(t)
    && HasAt(key, p, "cust_C")
    && HasAt(key, p + 6, c)
    && HasAt(key, p + 6 + |c|, "_T")
    && HasAt(key, p + 8 + |c|, t)
    && HasAt(key, p + 8 + |c| + |t|, "_name")
  }

  lemma PartsMatch(key: string, p: nat, c: string, t: string)
    requires PartsAt(key, p, c, t)
    ensures MatchAt(key, p) == Some(KeyMatch(c, t))
  {
    GroupsPartsMatch(key, p + 6, c, t);
  }

  lemma GroupsPartsMatch(key: string, j: nat, c: string, t: string)
    requires j <= |key|
    requires |c| > 0 && AllDigits(c) && HasAt(key, j, c) && HasAt(key, j + |c|, "_T")
    requires |t| > 0 && AllDigits(t) && HasAt(key, j + |c| + 2, t) && HasAt(key, j + |c| + 2 + |t|, "_name")
    ensures MatchGroups(key, j) == Some(KeyMatch(c, t))
  {
    assert key[j + |c|] == key[j + |c|..j + |c| + 2][0];
    DigitRunIs(key, j, |c|);
    ThermostatPartsMatch(key, j, |c|, t);
  }

  lemma ThermostatPartsMatch(key: string, j: nat, n: nat, t: string)
    requires j + n + 2 <= |key| && n > 0 && AllDigits(key[j..j + n])
    requires |t| > 0 && AllDigits(t) && HasAt(key, j + n + 2, t) && HasAt(key, j + n + 2 + |t|, "_name")
    ensures MatchThermostat(key, j, n) == Some(KeyMatch(key[j..j + n], t))
  {
    var k := j + n + 2;
    assert key[k + |t|] == key[k + |t|..k + |t| + 5][0];
    DigitRunIs(key, k, |t|);
  }

  lemma MatchIsPattern(key: string, p: nat, c: string, t: string)
    requires MatchAt(key, p) == Some(KeyMatch(c, t))
    ensures PatternAt(key, p, c, t)
  {
    MatchParts(key, p, c, t);
    PartsPattern(key, p, c, t);
  }

  lemma MatchParts(key: string, p: nat, c: string, t: string)
    requires MatchAt(key, p) == Some(KeyMatch(c, t))
    ensures PartsAt(key, p, c, t)
  {
    assert HasAt(key, p, "cust_C");
    GroupsMatchParts(key, p + 6, c, t);
  }

  lemma GroupsMatchParts(key: string, j: nat, c: string, t: string)
    requires j <= |key| && MatchGroups(key, j) == Some(KeyMatch(c, t))
    ensures HasAt(key, j, c) && HasAt(key, j + |c|, "_T")
    ensures HasAt(key, j + |c| + 2, t) && HasAt(key, j + |c| + 2 + |t|, "_name")
  {
    var n := DigitRun(key, j);
    assert n > 0 && HasAt(key, j + n, "_T");
    ThermostatMatchParts(key, j, n, c, t);
  }

  lemma ThermostatMatchParts(key: string, j: nat, n: nat, c: string, t: string)
    requires j + n + 2 <= |key| && n > 0 && AllDigits(key[j..j + n])
    requires MatchThermostat(key, j, n) == Some(KeyMatch(c, t))
    ensures c == key[j..j + n] && HasAt(key, j + n + 2, t) && HasAt(key, j + n + 2 + |t|, "_name")
  {
    var k := j + n + 2;
    var m := DigitRun(key, k);
    assert m > 0 && HasAt(key, k + m, "_name") && t == key[k..k + m];
  }

  lemma PartsPattern(key: string, p: nat, c: string, t: string)
    requires PartsAt(key, p, c, t)
    ensures PatternAt(key, p, c, t)
  {
    var j := p + 6;
    var k := j + |c| + 2;
    var e := k + |t| + 5;
    SliceSplit(key, p, k + |t|, e);
    SliceSplit(key, p, k, k + |t|);
    SliceSplit(key, p, j + |c|, k);
    SliceSplit(key, p, j, j + |c|);
  }

  lemma SliceSplit(s: string, a: nat, b: nat, c: nat)
    requires a <= b <= c <= |s|
    ensures s[a..c] == s[a..b] + s[b..c]
  {
  }

  /** Where the pattern's captures and separators sit in its text. */
  lemma PatternTextParts(c: string, t: string)
    ensures var text := PatternText(c, t);
      && |text| == 13 + |c| + |t|
      && text[..6] == "cust_C"
      && text[6..6 + |c|] == c
      && text[6 + |c|..8 + |c|] == "_T"
      && text[8 + |c|..8 + |c| + |t|] == t
      && text[8 + |c| + |t|..] == "_name"
  {
  }

  /** A part of an occurrence of `text` in `key` is the same part of `text`. */
  lemma SliceOfOccurrence(key: string, p: nat, text: string, a: nat, b: nat)
    requires p + |text| <= |key| && key[p..p + |text|] == text
    requires a <= b <= |text|
    ensures key[p + a..p + b] == text[a..b]
  {
    forall i | 0 <= i < b - a ensures key[p + a..p + b][i] == text[a..b][i] {
      assert key[p..p + |text|][a + i] == text[a + i];
    }
  }

  /** A run of `n` digits followed by a non-digit (or the end) is the maximal run. */
  lemma {:induction false} DigitRunIs(key: string, j: nat, n: nat)
    requires j + n <= |key|
    requires AllDigits(key[j..j + n])
    requires j + n == |key| || !IsDigit(key[j + n])
    ensures DigitRun(key, j) == n
    decreases n
  {
    if n > 0 {
      assert IsDigit(key[j..j + n][0]);
      assert key[j + 1..j + n] == key[j..j + n][1..];
      DigitRunIs(key, j + 1, n - 1);
    }
  }

  /**
   * Soundness of `exec`: what it returns are the captures of an occurrence
   * of the pattern, and no occurrence starts further left.
   */
  lemma FirstMatchSound(key: string)
    requires FirstMatch(key).Some?
    ensures exists p :: 0 <= p <= |key| &&
              PatternAt(key, p, FirstMatch(key).value.controller, FirstMatch(key).value.thermostat) &&
              forall q, c, t :: 0 <= q < p ==> !PatternAt(key, q, c, t)
  {
    var m := FirstMatch(key).value;
    var p :| 0 <= p <= |key| && MatchAt(key, p) == Some(m) &&
             forall q' :: 0 <= q' < p ==> MatchAt(key, q').None?;
    MatchAtIff(key, p, m.controller, m.thermostat);
    forall q, c, t | 0 <= q < p ensures !PatternAt(key, q, c, t) {
      MatchAtIff(key, q, c, t);
    }
  }

  /**
   * Completeness of `exec`: a key in which the pattern occurs always
   * matches, and the captures are those of the leftmost occurrence.
   */
  lemma FirstMatchComplete(key: string, p: nat, c: string, t: string)
    requires PatternAt(key, p, c, t)
    ensures FirstMatch(key).Some?
    ensures (forall q, c', t' :: 0 <= q < p ==> !PatternAt(key, q, c', t')) ==>
              FirstMatch(key) == Some(KeyMatch(c, t))
  {
    MatchAtIff(key, p, c, t);
    if forall q, c', t' :: 0 <= q < p ==> !PatternAt(key, q, c', t') {
      forall q | 0 <= q < p ensures MatchAt(key, q).None? {
        var m := MatchAt(key, q);
        if m.Some? {
          MatchAtIff(key, q, m.value.controller, m.value.thermostat);
        }
      }
      FirstMatchAt(key, p);
    } else {
      assert MatchAt(key, p).Some?;
    }
  }

  /** A match at `p` with no match to its left is what `exec` returns. */
  lemma FirstMatchAt(key: string, p: nat)
    requires p <= |key| && MatchAt(key, p).Some?
    requires forall q :: 0 <= q < p ==> MatchAt(key, q).None?
    ensures FirstMatch(key) == MatchAt(key, p)
  {
    var r := FirstMatch(key);
    assert r.Some?;
    var q :| 0 <= q <= |key| && MatchAt(key, q) == r &&
             forall q' :: 0 <= q' < q ==> MatchAt(key, q').None?;
  }

  /** A key without any occurrence of the pattern does not match. */
  lemma NoOccurrenceNoMatch(key: string)
    requires forall p, c, t :: 0 <= p <= |key| ==> !PatternAt(key, p, c, t)
    ensures FirstMatch(key).None?
  {
    if FirstMatch(key).Some? {
      FirstMatchSound(key);
    }
  }

  /** A key in which the literal `cust_C` does not occur does not match. */
  lemma NoPrefixNoMatch(key: string)
    requires forall p :: 0 <= p <= |key| ==> !HasAt(key, p, "cust_C")
    ensures FirstMatch(key).None?
  {
  }
}
