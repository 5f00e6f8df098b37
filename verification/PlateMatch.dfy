/**
 Plate similarity: how well the shorter of two plates fits somewhere in the longer one, and the scan of the open entries
 for the plate most like the one at the exit.
 */
module PlateMatch {
  import opened Common

  // ---------- Similarity ----------

  // The characters of source that agree with target from offset on, among the first n.
  function Agreeing(source: string, target: string, offset: nat, n: nat): (count: nat)
    requires n <= |source| && offset + n <= |target|
    ensures count <= n
  {
    if n == 0 then 0
    else Agreeing(source, target, offset, n - 1) + if source[n - 1] == target[offset + n - 1] then 1 else 0
  }

  // The most characters that agree at one of the offsets below n.
  function MostAgreeing(source: string, target: string, n: nat): (most: nat)
    requires n == 0 || n - 1 + |source| <= |target|
    ensures most <= |source|
  {
    if n == 0 then 0
    else Max(MostAgreeing(source, target, n - 1), Agreeing(source, target, n - 1, |source|))
  }

  function Max(x: nat, y: nat): nat {
    if x >= y then x else y
  }

  // The rounded percentage, halves up.
  function Percentage(part: nat, whole: nat): nat
    requires whole > 0
  {
    (200 * part + whole) / (2 * whole)
  }

  // The most characters of the shorter plate found in the longer one.
  function Overlap(source: string, target: string): nat
    requires |source| <= |target|
  {
    MostAgreeing(source, target, |target| - |source| + 1)
  }

  function Similarity(entry: string, exit: string): nat {
    if entry == "" || exit == "" then 0
    else if |exit| <= |entry| then Percentage(Overlap(exit, entry), |exit|)
    else Percentage(Overlap(entry, exit), |entry|)
  }

  method GetMaxSimilarity(entry: string, exit: string) returns (rate: nat)
    ensures rate == Similarity(entry, exit)
  {
    if |entry| == 0 || |exit| == 0 { return 0; }
    var source, target := entry, exit;
    if |exit| <= |entry| {
      source, target := exit, entry;
    }
    var maxMatched := 0;
    for i := 0 to |target| - |source| + 1
      invariant maxMatched == MostAgreeing(source, target, i)
    {
      var matched := 0;
      for j := 0 to |source|
        invariant matched == Agreeing(source, target, i, j)
      {
        if source[j] == target[j + i] { matched := matched + 1; }
      }
      maxMatched := Max(maxMatched, matched);
    }
    rate := Percentage(maxMatched, |source|);
  }

  predicate OccursAt(target: string, source: string, i: nat) {
    i + |source| <= |target| && target[i..i + |source|] == source
  }

  /** The shorter plate occurs in the longer one without a gap. */
  predicate Contains(target: string, source: string) {
    exists i :: 0 <= i <= |target| - |source| && OccursAt(target, source, i)
  }

  lemma {:induction false} AgreeingAll(source: string, target: string, offset: nat, n: nat)
    requires n <= |source| && offset + n <= |target|
    ensures Agreeing(source, target, offset, n) == n <==> target[offset..offset + n] == source[..n]
  {
    if n > 0 {
      AgreeingAll(source, target, offset, n - 1);
      assert source[..n] == source[..n - 1] + [source[n - 1]];
      assert target[offset..offset + n] == target[offset..offset + n - 1] + [target[offset + n - 1]];
    }
  }

  lemma {:induction false} AgreeingSymmetric(x: string, y: string, n: nat)
    requires n <= |x| && n <= |y|
    ensures Agreeing(x, y, 0, n) == Agreeing(y, x, 0, n)
  {
    if n > 0 { AgreeingSymmetric(x, y, n - 1); }
  }

  /** Which plate was read at the entry and which at the exit makes no difference. */
  lemma SimilaritySymmetric(x: string, y: string)
    ensures Similarity(x, y) == Similarity(y, x)
  {
    if |x| == |y| && x != "" {
      AgreeingSymmetric(x, y, |x|);
      assert MostAgreeing(x, y, 0) == MostAgreeing(y, x, 0) == 0;
    }
  }

  lemma DivAtLeast(n: nat, d: nat, k: nat)
    requires d > 0
    ensures n / d >= k <==> n >= d * k
  {
    var q := n / d;
    assert d * q <= n < d * (q + 1);
    if q >= k { assert d * k <= d * q; } else { assert d * (q + 1) <= d * k; }
  }

  lemma PercentageBounds(part: nat, whole: nat)
    requires part <= whole && whole > 0
    ensures Percentage(part, whole) <= 100
    ensures Percentage(part, whole) == 100 <==> 200 * (whole - part) <= whole
  {
    DivAtLeast(200 * part + whole, 2 * whole, 101);
    DivAtLeast(200 * part + whole, 2 * whole, 100);
  }

  lemma {:induction false} MostAgreeingAll(source: string, target: string, n: nat)
    requires n == 0 || n - 1 + |source| <= |target|
    requires source != ""
    ensures MostAgreeing(source, target, n) == |source| <==>
            exists i :: 0 <= i < n && OccursAt(target, source, i)
  {
    if n > 0 {
      MostAgreeingAll(source, target, n - 1);
      AgreeingAll(source, target, n - 1, |source|);
      assert source[..|source|] == source;
      assert Agreeing(source, target, n - 1, |source|) == |source| <==> OccursAt(target, source, n - 1);
    }
  }

  /** Similarity is a percentage, and for plates whose shorter one has fewer than 200 characters it is 100 exactly when the
      shorter one occurs in the longer one. */
  lemma SimilarityMeaning(x: string, y: string)
    ensures Similarity(x, y) <= 100
    ensures x != "" && y != "" ==>
              var source, target := if |y| <= |x| then y else x, if |y| <= |x| then x else y;
              && (|source| < 200 ==> (Similarity(x, y) == 100 <==> Contains(target, source)))
              && (Similarity(x, y) == 100 <==> 200 * (|source| - Overlap(source, target)) <= |source|)
  {
    if x != "" && y != "" {
      var source, target := if |y| <= |x| then y else x, if |y| <= |x| then x else y;
      PercentageBounds(Overlap(source, target), |source|);
      MostAgreeingAll(source, target, |target| - |source| + 1);
      hide Percentage, MostAgreeing, OccursAt;
    }
  }

  // ---------- The best fit ----------

  // The positions of the shorter plate that agree with the longer one from an offset on.
  function AgreeingAt(source: string, target: string, offset: nat): set<int>
    requires offset + |source| <= |target|
  {
    set j | 0 <= j < |source| && source[j] == target[offset + j]
  }

  lemma {:induction false} AgreeingIsSize(source: string, target: string, offset: nat, n: nat)
    requires n <= |source| && offset + |source| <= |target|
    ensures Agreeing(source, target, offset, n) == |set j | 0 <= j < n && source[j] == target[offset + j]|
  {
    var agreeing := set j | 0 <= j < n && source[j] == target[offset + j];
    if n == 0 {
      assert agreeing == {};
    } else {
      AgreeingIsSize(source, target, offset, n - 1);
      var before := set j | 0 <= j < n - 1 && source[j] == target[offset + j];
      assert agreeing == if source[n - 1] == target[offset + n - 1] then before + {n - 1} else before;
    }
  }

  // No offset has more agreeing positions, and one has as many.
  lemma {:induction false} MostIsGreatest(source: string, target: string, n: nat)
    requires n >= 1 && n - 1 + |source| <= |target|
    ensures forall i: nat | i < n :: |AgreeingAt(source, target, i)| <= MostAgreeing(source, target, n)
    ensures exists i: nat | i < n :: |AgreeingAt(source, target, i)| == MostAgreeing(source, target, n)
  {
    AgreeingIsSize(source, target, n - 1, |source|);
    assert |AgreeingAt(source, target, n - 1)| == Agreeing(source, target, n - 1, |source|);
    hide AgreeingAt, Agreeing;
    if n == 1 {
      assert MostAgreeing(source, target, 0) == 0;
    } else {
      MostIsGreatest(source, target, n - 1);
    }
  }

  // The nearest whole number of a hundred times part / whole, halves up.
  predicate IsPercentage(p: nat, part: nat, whole: nat) {
    2 * whole * p - whole <= 200 * part < 2 * whole * p + whole
  }

  lemma PercentageIsNearest(part: nat, whole: nat)
    requires whole > 0
    ensures IsPercentage(Percentage(part, whole), part, whole)
  {
    var x, d := 200 * part + whole, 2 * whole;
    assert d * (x / d) <= x < d * (x / d) + d;
  }

  /** The similarity of two plates is the percentage of the shorter one's positions that agree where it fits the longer one best;
      it is 0 with an empty plate. */
  lemma SimilarityIsBestFit(x: string, y: string)
    ensures x == "" || y == "" ==> Similarity(x, y) == 0
    ensures x != "" && y != "" ==>
              var source, target := if |y| <= |x| then y else x, if |y| <= |x| then x else y;
              exists i: nat | i + |source| <= |target| ::
                && (forall k: nat | k + |source| <= |target| ::
                      |AgreeingAt(source, target, k)| <= |AgreeingAt(source, target, i)|)
                && IsPercentage(Similarity(x, y), |AgreeingAt(source, target, i)|, |source|)
  {
    if x != "" && y != "" {
      var source, target := if |y| <= |x| then y else x, if |y| <= |x| then x else y;
      MostIsGreatest(source, target, |target| - |source| + 1);
      PercentageIsNearest(Overlap(source, target), |source|);
      hide AgreeingAt, MostAgreeing, Percentage, IsPercentage;
    }
  }

  // ---------- Digits ----------

  function DigitsOf(text: string): (digits: string)
    ensures forall c :: c in digits ==> IsDigit(c)
  {
    if text == "" then ""
    else DigitsOf(text[..|text| - 1]) + if IsDigit(text[|text| - 1]) then [text[|text| - 1]] else ""
  }

  // A single character is kept exactly when it is a digit.
  lemma OneDigit(c: char)
    ensures DigitsOf([c]) == if IsDigit(c) then [c] else ""
  {
    assert [c][..0] == "";
  }

  lemma DigitsMore(text: string, c: char)
    ensures DigitsOf(text + [c]) == DigitsOf(text) + DigitsOf([c])
  {
    OneDigit(c);
    assert (text + [c])[..|text|] == text;
  }

  /** The digits of two texts in a row are those of the one and then those of the other. */
  lemma {:induction false} DigitsInOrder(first: string, second: string)
    ensures DigitsOf(first + second) == DigitsOf(first) + DigitsOf(second)
  {
    if second == "" {
      assert first + second == first;
    } else {
      var n := |second| - 1;
      var init, last := second[..n], second[n];
      assert second == init + [last];
      DigitsInOrder(first, init);
      DigitsMore(first + init, last);
      DigitsMore(init, last);
      hide DigitsOf;
      Regrouped(first, init, [last]);
      Regrouped(DigitsOf(first), DigitsOf(init), DigitsOf([last]));
    }
  }

  lemma Regrouped(a: string, b: string, c: string)
    ensures a + (b + c) == a + b + c
  {
  }

  method GetDigitFromString(text: string) returns (digits: string)
    ensures digits == DigitsOf(text)
  {
    digits := "";
    for i := 0 to |text|
      invariant digits == DigitsOf(text[..i])
    {
      assert text[..i + 1][..i] == text[..i];
      if IsDigit(text[i]) { digits := digits + [text[i]]; }
    }
    assert text[..|text|] == text;
  }

  // ---------- The scan of open entries ----------

  datatype EntryRecord = EntryRecord(entryTime: string, lpn: string, entryStn: string, transType: string, oweAmt: string)

  datatype Match = Match(entry: EntryRecord, whole: nat, digit: nat)

  const BLANK_MATCH := Match(EntryRecord("", "", "0", "0", "0.00"), 0, 0)

  function MatchOf(entry: EntryRecord, exit: string): Match {
    Match(entry, Similarity(entry.lpn, exit), Similarity(DigitsOf(entry.lpn), DigitsOf(exit)))
  }

  // By whole rate first, then by digit rate.
  predicate Better(m: Match, best: Match) {
    m.whole > best.whole || (m.whole == best.whole && m.digit > best.digit)
  }

  /** The second scan as it is written: it compares with the digit rate of the best whole match, not with its own best. */
  predicate TakenForDigits(m: Match, bestWhole: Match, bestDigit: Match) {
    m.digit > bestWhole.digit || (m.digit == bestWhole.digit && m.whole > bestDigit.whole)
  }

  // The best matches by whole plate and by digits.
  datatype Best = Best(whole: Match, digit: Match)

  function Next(best: Best, m: Match): Best {
    var whole := if Better(m, best.whole) then m else best.whole;
    Best(whole, if TakenForDigits(m, whole, best.digit) then m else best.digit)
  }

  function Matches(entries: seq<EntryRecord>, exit: string): (ms: seq<Match>)
    ensures |ms| == |entries| && forall k :: 0 <= k < |ms| ==> ms[k] == MatchOf(entries[k], exit)
  {
    seq(|entries|, k requires 0 <= k < |entries| => MatchOf(entries[k], exit))
  }

  function Scan(ms: seq<Match>): Best {
    if ms == [] then Best(BLANK_MATCH, BLANK_MATCH) else Next(Scan(ms[..|ms| - 1]), ms[|ms| - 1])
  }

  lemma ScanMore(ms: seq<Match>, m: Match)
    ensures Scan(ms + [m]) == Next(Scan(ms), m)
  {
    assert (ms + [m])[..|ms|] == ms;
  }

  lemma MatchesMore(entries: seq<EntryRecord>, exit: string, k: nat)
    requires k < |entries|
    ensures Scan(Matches(entries[..k + 1], exit)) == Next(Scan(Matches(entries[..k], exit)), MatchOf(entries[k], exit))
  {
    hide Scan, MatchOf;
    assert Matches(entries[..k + 1], exit) == Matches(entries[..k], exit) + [MatchOf(entries[k], exit)];
    ScanMore(Matches(entries[..k], exit), MatchOf(entries[k], exit));
  }

  method ScanEntries(entries: seq<EntryRecord>, exit: string) returns (bestWhole: Match, bestDigit: Match)
    ensures Best(bestWhole, bestDigit) == Scan(Matches(entries, exit))
    ensures IsFirstBest(Matches(entries, exit), bestWhole)
  {
    bestWhole, bestDigit := BLANK_MATCH, BLANK_MATCH;
    for k := 0 to |entries|
      invariant Best(bestWhole, bestDigit) == Scan(Matches(entries[..k], exit))
    {
      var entry := entries[k];
      var whole := GetMaxSimilarity(entry.lpn, exit);
      var entryDigits := GetDigitFromString(entry.lpn);
      var exitDigits := GetDigitFromString(exit);
      var digit := GetMaxSimilarity(entryDigits, exitDigits);
      hide Similarity, DigitsOf, Scan, Matches;
      MatchesMore(entries, exit, k);
      if whole > bestWhole.whole || (whole == bestWhole.whole && digit > bestWhole.digit) {
        bestWhole := Match(entry, whole, digit);
      }
      if digit > bestWhole.digit || (digit == bestWhole.digit && whole > bestDigit.whole) {
        bestDigit := Match(entry, whole, digit);
      }
    }
    assert entries[..|entries|] == entries;
    WholeScanIsFirstBest(Matches(entries, exit));
  }

  /** The first record whose pair of rates no record exceeds, or the blank record if no pair exceeds (0, 0). */
  predicate IsFirstBest(ms: seq<Match>, best: Match) {
    && (forall k :: 0 <= k < |ms| ==> !Better(ms[k], best))
    && (if forall k :: 0 <= k < |ms| ==> !Better(ms[k], BLANK_MATCH) then best == BLANK_MATCH
        else exists k :: 0 <= k < |ms| && best == ms[k] && forall j :: 0 <= j < k ==> Better(best, ms[j]))
  }

  /** The scan by whole plate is right for every list of records. */
  lemma {:induction false} WholeScanIsFirstBest(ms: seq<Match>)
    ensures IsFirstBest(ms, Scan(ms).whole)
  {
    if ms != [] {
      var n := |ms| - 1;
      var init, m := ms[..n], ms[n];
      WholeScanIsFirstBest(init);
      var before := Scan(init).whole;
      assert forall k :: 0 <= k < n ==> init[k] == ms[k];
      if Better(m, before) {
        assert forall j :: 0 <= j < n ==> Better(m, ms[j]);
        assert Better(ms[n], BLANK_MATCH);
      } else if forall k :: 0 <= k < n ==> !Better(init[k], BLANK_MATCH) {
        assert forall k :: 0 <= k <= n ==> !Better(ms[k], BLANK_MATCH);
      } else {
        var k :| 0 <= k < n && before == init[k] && forall j :: 0 <= j < k ==> Better(before, init[j]);
        assert before == ms[k] && forall j :: 0 <= j < k ==> Better(before, ms[j]);
      }
    }
  }

  // ---------- What the digit scan finds ----------

  predicate FindsDigits(ms: seq<Match>) {
    forall m :: m in ms ==> m.digit <= Scan(ms).digit.digit
  }

  /** The records with the greatest whole rate have the greatest digit rate, and a digit rate above 0 comes with a whole rate
      above 0 somewhere. */
  predicate WholeLeads(ms: seq<Match>) {
    && (forall m, other :: m in ms && other in ms && MaxWhole(ms, m) ==> other.digit <= m.digit)
    && ((exists m :: m in ms && m.whole > 0) || forall m :: m in ms ==> m.digit == 0)
  }

  predicate MaxWhole(ms: seq<Match>, m: Match) {
    forall other :: other in ms ==> other.whole <= m.whole
  }

  // Over records that stay below a whole rate, or reach it only with one digit rate, the scan keeps the first that does.
  lemma {:induction false} ScanToTop(ms: seq<Match>, whole: nat, digit: nat)
    requires whole > 0
    requires forall m :: m in ms ==> m.whole <= whole && m.digit <= digit && (m.whole == whole ==> m.digit == digit)
    ensures var best := Scan(ms);
            if exists m :: m in ms && m.whole == whole then
              best.whole.whole == best.digit.whole == whole && best.whole.digit == best.digit.digit == digit
            else best.whole.whole < whole && best.digit.whole < whole
  {
    if ms != [] {
      var n := |ms| - 1;
      assert forall m :: m in ms <==> m in ms[..n] || m == ms[n];
      ScanToTop(ms[..n], whole, digit);
    }
  }

  lemma {:induction false} GreatestWhole(ms: seq<Match>) returns (top: Match)
    requires ms != []
    ensures top in ms && MaxWhole(ms, top)
  {
    var n := |ms| - 1;
    assert forall m :: m in ms <==> m in ms[..n] || m == ms[n];
    top := ms[n];
    if n > 0 {
      var before := GreatestWhole(ms[..n]);
      if before.whole > top.whole { top := before; }
    }
  }

  lemma LeadingScanFinds(ms: seq<Match>)
    requires WholeLeads(ms)
    ensures FindsDigits(ms)
  {
    if ms != [] {
      var top := GreatestWhole(ms);
      if top.whole > 0 { ScanToTop(ms, top.whole, top.digit); }
    }
  }

  // Records without any whole rate are never taken for their digits.
  lemma {:induction false} NoWholeNoDigit(ms: seq<Match>)
    requires forall m :: m in ms ==> m.whole == 0
    ensures Scan(ms).digit == BLANK_MATCH && Scan(ms).whole.whole == 0
  {
    if ms != [] {
      var n := |ms| - 1;
      assert forall m :: m in ms <==> m in ms[..n] || m == ms[n];
      NoWholeNoDigit(ms[..n]);
    }
  }

  function Below(ms: seq<Match>, whole: nat): seq<Match> {
    if ms == [] then []
    else Below(ms[..|ms| - 1], whole) + if ms[|ms| - 1].whole < whole then [ms[|ms| - 1]] else []
  }

  function NotBelow(ms: seq<Match>, whole: nat): seq<Match> {
    if ms == [] then []
    else NotBelow(ms[..|ms| - 1], whole) + if ms[|ms| - 1].whole < whole then [] else [ms[|ms| - 1]]
  }

  lemma {:induction false} SplitByWhole(ms: seq<Match>, whole: nat)
    ensures multiset(ms) == multiset(Below(ms, whole)) + multiset(NotBelow(ms, whole))
  {
    if ms != [] {
      var n := |ms| - 1;
      SplitByWhole(ms[..n], whole);
      assert ms == ms[..n] + [ms[n]];
      Appended(ms[..n], ms[n]);
      Appended(Below(ms[..n], whole), ms[n]);
      Appended(NotBelow(ms[..n], whole), ms[n]);
      assert Below(ms, whole) == Below(ms[..n], whole) + if ms[n].whole < whole then [ms[n]] else [];
      assert NotBelow(ms, whole) == NotBelow(ms[..n], whole) + if ms[n].whole < whole then [] else [ms[n]];
      hide Below, NotBelow;
    }
  }

  lemma {:induction false} BelowIsBelow(ms: seq<Match>, whole: nat)
    ensures forall m :: m in Below(ms, whole) ==> m.whole < whole
    ensures forall m :: m in NotBelow(ms, whole) ==> m.whole >= whole
  {
    if ms != [] { BelowIsBelow(ms[..|ms| - 1], whole); }
  }

  lemma Appended<T>(xs: seq<T>, x: T)
    ensures multiset(xs + [x]) == multiset(xs) + multiset{x}
  {
  }

  lemma Removed<T>(xs: seq<T>, i: nat)
    requires i < |xs|
    ensures multiset(xs) == multiset(xs[..i] + xs[i + 1..]) + multiset{xs[i]}
  {
    assert xs == xs[..i] + [xs[i]] + xs[i + 1..];
  }

  lemma Joined<T>(low: seq<T>, x: T, high: seq<T>)
    ensures multiset(low + [x] + high) == multiset(low) + multiset(high) + multiset{x}
  {
  }

  // Once a record with the greatest whole rate is taken, none other is.
  lemma {:induction false} TopStaysTaken(ms: seq<Match>, more: seq<Match>, top: Match)
    requires Scan(ms).digit == top && Scan(ms).whole.whole == top.whole
    requires forall m :: m in more ==> m.whole == top.whole
    ensures Scan(ms + more).digit == top && Scan(ms + more).whole.whole == top.whole
  {
    if more == [] {
      assert ms + more == ms;
    } else {
      var n := |more| - 1;
      assert forall m :: m in more <==> m in more[..n] || m == more[n];
      TopStaysTaken(ms, more[..n], top);
      assert ms + more == ms + more[..n] + [more[n]];
      ScanMore(ms + more[..n], more[n]);
    }
  }

  // The order that puts a record of the greatest whole rate before its equals and after the rest.
  lemma FailingOrder(ms: seq<Match>, i: nat) returns (order: seq<Match>)
    requires i < |ms| && ms[i].whole > 0 && MaxWhole(ms, ms[i])
    ensures multiset(order) == multiset(ms) && Scan(order).digit == ms[i]
  {
    var top, others := ms[i], ms[..i] + ms[i + 1..];
    var low, high := Below(others, top.whole), NotBelow(others, top.whole);
    order := low + [top] + high;
    Removed(ms, i);
    SplitByWhole(others, top.whole);
    BelowIsBelow(others, top.whole);
    Joined(low, top, high);
    hide Scan, Below, NotBelow;
    SameMembers(order, ms);
    forall m | m in high ensures m.whole == top.whole { assert m in order; }
    ScanBelow(low, top.whole);
    ScanMore(low, top);
    TopStaysTaken(low + [top], high, top);
  }

  lemma {:induction false} ScanBelow(ms: seq<Match>, whole: nat)
    requires whole > 0 && forall m :: m in ms ==> m.whole < whole
    ensures Scan(ms).whole.whole < whole && Scan(ms).digit.whole < whole
  {
    if ms != [] {
      var n := |ms| - 1;
      assert forall m :: m in ms <==> m in ms[..n] || m == ms[n];
      ScanBelow(ms[..n], whole);
    }
  }

  /** The digit scan finds the greatest digit rate in whatever order the records come exactly when the records with the
      greatest whole rate have it, and no digit rate is above 0 with all whole rates at 0. */
  lemma DigitScanInAnyOrder(ms: seq<Match>)
    ensures (forall order: seq<Match> | multiset(order) == multiset(ms) :: FindsDigits(order)) <==> WholeLeads(ms)
  {
    if WholeLeads(ms) {
      forall order: seq<Match> | multiset(order) == multiset(ms) ensures FindsDigits(order) {
        SameMembers(order, ms);
        LeadingScanFinds(order);
      }
    } else if forall m :: m in ms ==> m.whole == 0 {
      NoWholeNoDigit(ms);
      assert !FindsDigits(ms);
    } else {
      var m, other :| m in ms && other in ms && MaxWhole(ms, m) && other.digit > m.digit;
      var i :| 0 <= i < |ms| && ms[i] == m;
      var order := FailingOrder(ms, i);
      SameMembers(order, ms);
      assert other in order && !FindsDigits(order);
    }
  }

  lemma SameMembers(xs: seq<Match>, ys: seq<Match>)
    requires multiset(xs) == multiset(ys)
    ensures forall m :: m in xs <==> m in ys
  {
    forall m ensures m in xs <==> m in ys {
      assert m in xs <==> m in multiset(xs);
      assert m in ys <==> m in multiset(ys);
    }
  }

  // ---------- The record taken from one list ----------

  // Taken whatever was taken before: its whole rate is a new greatest, or its digit rate exceeds the best whole match's.
  predicate Forced(ms: seq<Match>, k: nat)
    requires k < |ms|
  {
    ms[k].whole > Scan(ms[..k]).whole.whole || ms[k].digit > Scan(ms[..k + 1]).whole.digit
  }

  // Taken only for a whole rate above that of the record taken before.
  predicate Tied(ms: seq<Match>, k: nat)
    requires k < |ms|
  {
    ms[k].digit == Scan(ms[..k + 1]).whole.digit
  }

  // The record at k; before the first it is the blank one.
  function At(ms: seq<Match>, k: int): Match
    requires -1 <= k < |ms|
  {
    if k < 0 then BLANK_MATCH else ms[k]
  }

  /** Of the first n records, record last is the last forced one, and record k the first with the greatest whole rate among
      it and the tied ones after it. */
  predicate TakenUpTo(ms: seq<Match>, n: nat, last: int, k: int)
    requires n <= |ms|
  {
    && -1 <= last <= k < n
    && (last >= 0 ==> Forced(ms, last)) && (forall j :: last < j < n ==> !Forced(ms, j))
    && (k > last ==> Tied(ms, k) && ms[k].whole > At(ms, last).whole)
    && (forall j :: last < j < k && Tied(ms, j) ==> ms[j].whole < ms[k].whole)
    && (forall j :: k < j < n && Tied(ms, j) ==> ms[j].whole <= At(ms, k).whole)
  }

  predicate TakenFrom(ms: seq<Match>, last: int, k: int) {
    TakenUpTo(ms, |ms|, last, k)
  }

  // The first records are forced and tied as they are among all.
  lemma PrefixFacts(ms: seq<Match>, n: nat)
    requires n <= |ms|
    ensures forall k: nat {:trigger Forced(ms, k)} | k < n :: Forced(ms[..n], k) == Forced(ms, k)
    ensures forall k: nat {:trigger Tied(ms, k)} | k < n :: Tied(ms[..n], k) == Tied(ms, k)
  {
    forall k: nat | k < n ensures Forced(ms[..n], k) == Forced(ms, k) && Tied(ms[..n], k) == Tied(ms, k) {
      assert ms[..n][..k] == ms[..k] && ms[..n][..k + 1] == ms[..k + 1];
    }
  }

  lemma TakenBefore(ms: seq<Match>, n: nat, last: int, k: int)
    requires n <= |ms| && TakenFrom(ms[..n], last, k)
    ensures TakenUpTo(ms, n, last, k) && At(ms[..n], k) == At(ms, k)
  {
    PrefixFacts(ms, n);
    hide Scan, Forced, Tied;
    forall j | last < j < n ensures !Forced(ms, j) { assert !Forced(ms[..n], j); }
    forall j | last < j < n && Tied(ms, j) ensures Tied(ms[..n], j) {}
    assert forall j :: 0 <= j < n ==> ms[..n][j] == ms[j];
  }

  // One more record: forced, or tied and better than the one taken, or neither.
  lemma TakenMore(ms: seq<Match>, last: int, k: int) returns (last': int, k': int)
    requires ms != [] && TakenFrom(ms[..|ms| - 1], last, k)
    ensures TakenFrom(ms, last', k')
    ensures var n := |ms| - 1;
            At(ms, k') == if Forced(ms, n) || (Tied(ms, n) && ms[n].whole > At(ms[..n], k).whole) then ms[n]
                          else At(ms[..n], k)
  {
    var n := |ms| - 1;
    TakenBefore(ms, n, last, k);
    hide Scan, Forced, Tied, TakenUpTo;
    if Forced(ms, n) {
      last', k' := n, n;
      ForcedTaken(ms, n);
    } else if Tied(ms, n) && ms[n].whole > At(ms, k).whole {
      last', k' := last, n;
      TiedTaken(ms, n, last, k);
    } else {
      last', k' := last, k;
      NotTaken(ms, n, last, k);
    }
  }

  lemma ForcedTaken(ms: seq<Match>, n: nat)
    requires n < |ms| && Forced(ms, n)
    ensures TakenUpTo(ms, n + 1, n, n)
  {
    hide Forced, Tied;
  }

  lemma TiedTaken(ms: seq<Match>, n: nat, last: int, k: int)
    requires n < |ms| && TakenUpTo(ms, n, last, k) && !Forced(ms, n) && Tied(ms, n) && ms[n].whole > At(ms, k).whole
    ensures TakenUpTo(ms, n + 1, last, n)
  {
    hide Forced, Tied;
    assert At(ms, last).whole <= At(ms, k).whole;
    forall j | last < j < n && Tied(ms, j) ensures ms[j].whole < ms[n].whole {
      assert ms[j].whole <= At(ms, k).whole;
    }
  }

  lemma NotTaken(ms: seq<Match>, n: nat, last: int, k: int)
    requires n < |ms| && TakenUpTo(ms, n, last, k) && !Forced(ms, n)
    requires !(Tied(ms, n) && ms[n].whole > At(ms, k).whole)
    ensures TakenUpTo(ms, n + 1, last, k)
  {
    hide Forced, Tied;
  }

  lemma {:induction false} DigitWithinWhole(ms: seq<Match>)
    ensures Scan(ms).digit.whole <= Scan(ms).whole.whole
  {
    if ms != [] { DigitWithinWhole(ms[..|ms| - 1]); }
  }

  // When the last record is taken.
  lemma LastTaken(ms: seq<Match>)
    requires ms != []
    ensures var n := |ms| - 1;
            var before := Scan(ms[..n]).digit;
            Scan(ms).digit == if Forced(ms, n) || (Tied(ms, n) && ms[n].whole > before.whole) then ms[n] else before
  {
    var n := |ms| - 1;
    DigitWithinWhole(ms[..n]);
    assert ms[..n + 1] == ms;
  }

  /** The digit scan ends with the record so taken. */
  lemma {:induction false} ScanTakes(ms: seq<Match>) returns (last: int, k: int)
    ensures TakenFrom(ms, last, k) && Scan(ms).digit == At(ms, k)
  {
    if ms == [] {
      last, k := -1, -1;
    } else {
      var n := |ms| - 1;
      last, k := ScanTakes(ms[..n]);
      LastTaken(ms);
      hide Scan, Forced, Tied, TakenFrom;
      last, k := TakenMore(ms, last, k);
    }
  }

  // Only one record is.
  lemma OneIsTaken(ms: seq<Match>, last: int, k: int, last': int, k': int)
    requires TakenFrom(ms, last, k) && TakenFrom(ms, last', k')
    ensures last == last' && k == k'
  {
    hide Forced, Tied;
  }

  /** So of one list in its order the greatest digit rate is found exactly when the record so taken has it. */
  lemma DigitScanExactly(ms: seq<Match>)
    ensures FindsDigits(ms)
       <==> exists last, k :: TakenFrom(ms, last, k) && forall m :: m in ms ==> m.digit <= At(ms, k).digit
  {
    var last, k := ScanTakes(ms);
    forall last', k' | TakenFrom(ms, last', k') ensures k' == k {
      OneIsTaken(ms, last, k, last', k');
    }
  }

  /** The digit scan does not find the best digits: of two entries that share half their plate with the exit's, it keeps the
      first although all digits of the second agree. */
  lemma DigitScanMissesBest()
    ensures var worse, better := EntryRecord("t1", "AB12", "1", "1", "0"), EntryRecord("t2", "XY34", "1", "1", "0");
            var best := Scan(Matches([worse, better], "AB34"));
            && best.digit.entry == worse && best.digit.digit == 0
            && MatchOf(better, "AB34").digit == 100 && MatchOf(better, "AB34").whole == best.digit.whole
  {
    var worse, better := EntryRecord("t1", "AB12", "1", "1", "0"), EntryRecord("t2", "XY34", "1", "1", "0");
    hide Similarity, DigitsOf;
    TwoOfFour();
    DigitsOfFour('A', 'B', '1', '2');
    DigitsOfFour('X', 'Y', '3', '4');
    DigitsOfFour('A', 'B', '3', '4');
    assert DigitsOf("AB12") == "12" && DigitsOf("XY34") == "34" && DigitsOf("AB34") == "34";
    var m1, m2 := MatchOf(worse, "AB34"), MatchOf(better, "AB34");
    assert m1 == Match(worse, 50, 0) && m2 == Match(better, 50, 100);
    assert Matches([worse, better], "AB34") == [] + [m1] + [m2];
    assert Scan([]) == Best(BLANK_MATCH, BLANK_MATCH);
    ScanMore([], m1);
    ScanMore([] + [m1], m2);
  }

  lemma DigitsOfFour(c: char, d: char, e: char, f: char)
    requires !IsDigit(c) && !IsDigit(d) && IsDigit(e) && IsDigit(f)
    ensures DigitsOf([c, d, e, f]) == [e, f]
  {
    assert [c, d, e, f][..3] == [c, d, e] && [c, d, e][..2] == [c, d] && [c, d][..1] == [c] && [c][..0] == "";
    assert DigitsOf([c]) == "";
    assert DigitsOf([c, d]) == "";
  }

  lemma FourAgreeing(x: string, y: string)
    requires |x| == |y| == 4
    ensures Overlap(x, y) == Agreeing(x, y, 0, 2) + (if x[2] == y[2] then 1 else 0) + (if x[3] == y[3] then 1 else 0)
    ensures Agreeing(x, y, 0, 2) == (if x[0] == y[0] then 1 else 0) + (if x[1] == y[1] then 1 else 0)
  {
    assert Agreeing(x, y, 0, 3) == Agreeing(x, y, 0, 2) + if x[2] == y[2] then 1 else 0;
    assert MostAgreeing(x, y, 0) == 0;
  }

  lemma TwoOfFour()
    ensures Similarity("AB12", "AB34") == 50 && Similarity("XY34", "AB34") == 50
    ensures Similarity("12", "34") == 0 && Similarity("34", "34") == 100
  {
    FourAgreeing("AB34", "AB12");
    FourAgreeing("AB34", "XY34");
    assert Overlap("34", "12") == 0;
    assert Overlap("34", "34") == 2;
  }
}
