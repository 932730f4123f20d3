/** The check of a set of rates as it runs: one pass over the rows with a set of keys seen, the
    currency of each binding and the intervals of each group; an accepted set is answered in key order. */
module RateSets {
  import opened Outcomes
  import opened Unicode
  import opened RateRevision
  import opened RateRevisionProof

  /** The texts a row is filed under, and what is filed. */
  datatype Filed = Filed(key: JsString, binding: JsString, group: JsString, currency: JsString, applicability: Applicability)

  function FileOf(rate: Rate): Filed {
    Filed(KeyText(rate), BindingText(rate), GroupText(rate), rate.currency, rate.applicability)
  }

  predicate FiledApart(a: Filed, b: Filed) {
    && a.key != b.key
    && (a.binding == b.binding ==> a.currency == b.currency)
    && (a.group == b.group ==> IntervalsOk(a.applicability, b.applicability))
  }

  lemma {:induction false} FiledApartIsCompatible(a: Rate, b: Rate)
    requires RateOk(a) && RateOk(b)
    ensures FiledApart(FileOf(a), FileOf(b)) == Compatible(a, b)
  {
    TextsTellRatesApart(a, b);
  }

  /** The intervals filed under a group among the first i rows. */
  function Group(files: seq<Filed>, i: nat, group: JsString): seq<Applicability>
    requires i <= |files|
  {
    if i == 0 then []
    else Group(files, i - 1, group) + if files[i - 1].group == group then [files[i - 1].applicability] else []
  }

  lemma {:induction false} GroupHolds(files: seq<Filed>, i: nat, group: JsString, a: Applicability)
    requires i <= |files|
    ensures a in Group(files, i, group) <==> exists j :: 0 <= j < i && files[j].group == group && files[j].applicability == a
  {
    if i > 0 { GroupHolds(files, i - 1, group, a); }
  }

  // ----- what the pass remembers of the first i rows -----

  ghost predicate KeysSeen(files: seq<Filed>, i: nat, keys: set<JsString>) {
    i <= |files| && forall key :: key in keys <==> exists j :: 0 <= j < i && files[j].key == key
  }

  ghost predicate CurrenciesSeen(files: seq<Filed>, i: nat, currencies: map<JsString, JsString>) {
    && i <= |files|
    && (forall j :: 0 <= j < i ==> files[j].binding in currencies && currencies[files[j].binding] == files[j].currency)
    && (forall b :: b in currencies ==> exists j :: 0 <= j < i && files[j].binding == b)
  }

  function Prior(intervals: map<JsString, seq<Applicability>>, group: JsString): seq<Applicability> {
    if group in intervals then intervals[group] else []
  }

  ghost predicate IntervalsSeen(files: seq<Filed>, i: nat, intervals: map<JsString, seq<Applicability>>) {
    i <= |files| && forall g :: Prior(intervals, g) == Group(files, i, g)
  }

  lemma {:induction false} KeyFiled(files: seq<Filed>, i: nat, keys: set<JsString>)
    requires i < |files| && KeysSeen(files, i, keys)
    ensures files[i].key in keys <==> exists j :: 0 <= j < i && files[j].key == files[i].key
    ensures KeysSeen(files, i + 1, keys + {files[i].key})
  {
  }

  lemma {:induction false} CurrencyFiled(files: seq<Filed>, i: nat, currencies: map<JsString, JsString>)
    requires i < |files| && CurrenciesSeen(files, i, currencies)
    ensures var file := files[i];
      var clash := file.binding in currencies && currencies[file.binding] != file.currency;
      && (clash <==> exists j :: 0 <= j < i && files[j].binding == file.binding && files[j].currency != file.currency)
      && (!clash ==> CurrenciesSeen(files, i + 1, currencies[file.binding := file.currency]))
  {
  }

  lemma {:induction false} IntervalFiled(files: seq<Filed>, i: nat, intervals: map<JsString, seq<Applicability>>)
    requires i < |files| && IntervalsSeen(files, i, intervals)
    ensures var file := files[i];
      var prior := Prior(intervals, file.group);
      && (forall a :: a in prior <==> exists j :: 0 <= j < i && files[j].group == file.group && files[j].applicability == a)
      && IntervalsSeen(files, i + 1, intervals[file.group := prior + [file.applicability]])
  {
    var file := files[i];
    forall a ensures a in Prior(intervals, file.group)
                     <==> exists j :: 0 <= j < i && files[j].group == file.group && files[j].applicability == a {
      GroupHolds(files, i, file.group, a);
    }
    var more := intervals[file.group := Prior(intervals, file.group) + [file.applicability]];
    forall g ensures Prior(more, g) == Group(files, i + 1, g) {
      assert Prior(intervals, g) == Group(files, i, g);
    }
  }

  ghost predicate ApartFrom(files: seq<Filed>, i: nat) {
    i < |files| && forall j :: 0 <= j < i ==> FiledApart(files[j], files[i])
  }

  predicate Clashes(currencies: map<JsString, JsString>, file: Filed) {
    file.binding in currencies && currencies[file.binding] != file.currency
  }

  predicate Fits(prior: seq<Applicability>, a: Applicability) {
    forall b :: b in prior ==> IntervalsOk(b, a)
  }

  /** What the pass knows after some rows. */
  datatype Memory = Memory(
    keys: set<JsString>,
    currencies: map<JsString, JsString>,
    intervals: map<JsString, seq<Applicability>>
  )

  ghost predicate Remembers(files: seq<Filed>, i: nat, m: Memory) {
    KeysSeen(files, i, m.keys) && CurrenciesSeen(files, i, m.currencies) && IntervalsSeen(files, i, m.intervals)
  }

  predicate Passes(m: Memory, file: Filed) {
    file.key !in m.keys && !Clashes(m.currencies, file) && Fits(Prior(m.intervals, file.group), file.applicability)
  }

  function Add(m: Memory, file: Filed): Memory {
    Memory(m.keys + {file.key}, m.currencies[file.binding := file.currency],
           m.intervals[file.group := Prior(m.intervals, file.group) + [file.applicability]])
  }

  function Recall(files: seq<Filed>, i: nat): Memory
    requires i <= |files|
  {
    if i == 0 then Memory({}, map[], map[]) else Add(Recall(files, i - 1), files[i - 1])
  }

  /** The three tests of a row find exactly the rows that do not go with an earlier one. */
  lemma {:induction false} RowIsTested(files: seq<Filed>, i: nat, m: Memory)
    requires i < |files| && Remembers(files, i, m)
    ensures ApartFrom(files, i) == Passes(m, files[i])
  {
    KeyFiled(files, i, m.keys);
    CurrencyFiled(files, i, m.currencies);
    IntervalFiled(files, i, m.intervals);
    FitsIsApart(files, i, Prior(m.intervals, files[i].group));
  }

  lemma {:induction false} RowIsFiled(files: seq<Filed>, i: nat, m: Memory)
    requires i < |files| && Remembers(files, i, m) && Passes(m, files[i])
    ensures Remembers(files, i + 1, Add(m, files[i]))
  {
    KeyFiled(files, i, m.keys);
    CurrencyFiled(files, i, m.currencies);
    IntervalFiled(files, i, m.intervals);
  }

  /** The first i rows go with each other. */
  ghost predicate AllApart(files: seq<Filed>, i: nat)
  {
    i <= |files| && (i == 0 || (AllApart(files, i - 1) && ApartFrom(files, i - 1)))
  }

  lemma {:induction false} NothingFiled(files: seq<Filed>)
    ensures Remembers(files, 0, Memory({}, map[], map[]))
  {
  }

  lemma {:induction false} StepRemembers(files: seq<Filed>, i: nat, m: Memory)
    requires i < |files| && Remembers(files, i, m) && ApartFrom(files, i)
    ensures Remembers(files, i + 1, Add(m, files[i]))
  {
    RowIsTested(files, i, m);
    RowIsFiled(files, i, m);
  }

  lemma {:induction false} RecallRemembers(files: seq<Filed>, i: nat) returns (m: Memory)
    requires AllApart(files, i)
    ensures m == Recall(files, i) && Remembers(files, i, m)
  {
    if i == 0 {
      m := Memory({}, map[], map[]);
      NothingFiled(files);
    } else {
      var before := RecallRemembers(files, i - 1);
      m := Add(before, files[i - 1]);
      StepRemembers(files, i - 1, before);
    }
  }

  lemma {:induction false} RowPasses(files: seq<Filed>, i: nat)
    requires i < |files| && AllApart(files, i)
    ensures ApartFrom(files, i) == Passes(Recall(files, i), files[i])
  {
    var m := RecallRemembers(files, i);
    RowIsTested(files, i, m);
  }

  lemma {:induction false} NotAllApart(files: seq<Filed>, i: nat, n: nat)
    requires i < n <= |files| && !ApartFrom(files, i)
    ensures !AllApart(files, n)
  {
    if i < n - 1 { NotAllApart(files, i, n - 1); }
  }

  lemma {:induction false} AllApartAt(files: seq<Filed>, n: nat, i: nat)
    requires i < n <= |files| && AllApart(files, n)
    ensures ApartFrom(files, i)
  {
    if i < n - 1 { AllApartAt(files, n - 1, i); }
  }

  lemma {:induction false} AllApartFrom(files: seq<Filed>, n: nat)
    requires n <= |files| && forall i: nat :: i < n ==> ApartFrom(files, i)
    ensures AllApart(files, n)
  {
    if n > 0 { AllApartFrom(files, n - 1); }
  }

  lemma {:induction false} FitsIsApart(files: seq<Filed>, i: nat, prior: seq<Applicability>)
    requires i < |files|
    requires forall a :: a in prior <==> exists j :: 0 <= j < i && files[j].group == files[i].group && files[j].applicability == a
    ensures Fits(prior, files[i].applicability) <==>
            forall j :: 0 <= j < i && files[j].group == files[i].group ==> IntervalsOk(files[j].applicability, files[i].applicability)
  {
    if Fits(prior, files[i].applicability) {
      forall j | 0 <= j < i && files[j].group == files[i].group
        ensures IntervalsOk(files[j].applicability, files[i].applicability)
      {
        assert files[j].applicability in prior;
      }
    }
  }

  /** validateIntervals against every interval of the group. */
  method IntervalsFit(prior: seq<Applicability>, a: Applicability) returns (ok: bool)
    ensures ok == Fits(prior, a)
  {
    var k := 0;
    while k < |prior|
      invariant 0 <= k <= |prior|
      invariant forall m :: 0 <= m < k ==> IntervalsOk(prior[m], a)
    {
      if !IntervalsOk(prior[k], a) {
        assert prior[k] in prior;
        return false;
      }
      k := k + 1;
    }
    ok := true;
  }

  /** The pass over the filed rows. */
  method FileRows(files: seq<Filed>) returns (ok: bool)
    ensures ok == AllApart(files, |files|)
  {
    var keys: set<JsString> := {};
    var currencies: map<JsString, JsString> := map[];
    var intervals: map<JsString, seq<Applicability>> := map[];
    var i := 0;
    while i < |files|
      invariant 0 <= i <= |files|
      invariant Memory(keys, currencies, intervals) == Recall(files, i)
      invariant AllApart(files, i)
    {
      var file := files[i];
      RowPasses(files, i);
      if !ApartFrom(files, i) { NotAllApart(files, i, |files|); }
      if file.key in keys { return false; }
      keys := keys + {file.key};
      if Clashes(currencies, file) { return false; }
      currencies := currencies[file.binding := file.currency];
      var prior := Prior(intervals, file.group);
      var fit := IntervalsFit(prior, file.applicability);
      if !fit { return false; }
      intervals := intervals[file.group := prior + [file.applicability]];
      i := i + 1;
    }
    ok := true;
  }

  ghost predicate FilesOf(rows: seq<Rate>, files: seq<Filed>) {
    |files| == |rows| && forall j :: 0 <= j < |rows| ==> files[j] == FileOf(rows[j])
  }

  /** Validate and sort: the answer is the sorted list exactly for acceptable sets. */
  method CheckRateSet(rows: seq<Rate>) returns (answer: Option<seq<Rate>>)
    ensures answer == if RateSetOk(rows) then Some(SortRates(rows)) else None
  {
    if |rows| < 1 || |rows| > MAX_RATES { return None; }
    var n := 0;
    while n < |rows|
      invariant 0 <= n <= |rows|
      invariant forall j :: 0 <= j < n ==> RateOk(rows[j])
    {
      if !RateOk(rows[n]) { return None; }
      n := n + 1;
    }
    var files := seq(|rows|, j requires 0 <= j < |rows| => FileOf(rows[j]));
    var ok := FileRows(files);
    SetIsFiled(rows, files);
    answer := if ok then Some(SortRates(rows)) else None;
  }

  lemma {:induction false} SetIsFiled(rows: seq<Rate>, files: seq<Filed>)
    requires FilesOf(rows, files) && 1 <= |rows| <= MAX_RATES && forall j :: 0 <= j < |rows| ==> RateOk(rows[j])
    ensures RateSetOk(rows) <==> AllApart(files, |files|)
  {
    forall j, i | 0 <= j < i < |rows| ensures Compatible(rows[j], rows[i]) == FiledApart(files[j], files[i]) {
      FiledApartIsCompatible(rows[j], rows[i]);
    }
    if RateSetOk(rows) { AllApartFrom(files, |files|); }
    if AllApart(files, |files|) {
      forall j, i: nat | 0 <= j < i < |rows| ensures Compatible(rows[j], rows[i]) { AllApartAt(files, |files|, i); }
    }
  }
}
