/** The anonymisation run of the application (AnonymizerApp.anonymize_data,
    assign2.py:96-174): the data frame is noised column by column, grouped,
    redacted column by column, and the helper `count` column is dropped. */
module Anonymizer {
  import opened Tables
  import opened Domains
  import opened ColumnList
  import opened Noise
  import opened Risk
  import opened Redaction
  import opened Masking

  /** The entry confirmed in a string column's method dialog. */
  datatype Choice = ChoseSuppression | ChoseGeneralization(level: nat) | ChoseSyntheticReplacement

  /** What the dialogs and the random sources supply to one run. A column missing from
      `epsilons` or `choices` is one whose dialog was closed without confirming. */
  datatype Config = Config(
    epsilons: map<string, real>,
    choices: map<string, Choice>,
    laplace: (string, nat) -> real,  // unit Laplace draw for a column and row
    faker: (Domain, nat) -> string,  // the value generators, by domain and random draw
    draw: (string, nat) -> nat)      // random draw behind synthetic_value for a column and row

  function UnitDraws(cfg: Config, col: string, n: nat): (u: seq<real>)
    ensures |u| == n
  {
    seq(n, i requires 0 <= i < n => cfg.laplace(col, i))
  }

  /** Column `col` of `after` is column `col` of `before` noised once, with the
      column's confirmed epsilon and its own draws. */
  ghost predicate NoisedFrom(before: Table, after: Table, col: string, cfg: Config)
  {
    && col in before.cells && col in after.cells && col in cfg.epsilons
    && before.cells[col].Numbers? && after.cells[col].Numbers?
    && var xs := before.cells[col].xs;
       ApplyDifferentialPrivacy(xs, cfg.epsilons[col], UnitDraws(cfg, col, |xs|)) == Success(after.cells[col].xs)
  }

  /** Line 128 for one listed column; a column the table lacks is skipped. */
  function NoiseColumn(t: Table, col: string, cfg: Config): (r: Result<Table>)
    requires WellFormed(t)
    ensures col !in t.cells ==> r == Success(t)
    ensures r.Success? ==> WellFormed(r.value) && r.value.columns == t.columns && r.value.rows == t.rows
    ensures r.Success? ==> forall c :: c in t.cells && c != col ==> r.value.cells[c] == t.cells[c]
    ensures r.Success? && col in t.cells ==> NoisedFrom(t, r.value, col, cfg)
    ensures col in t.cells && col !in cfg.epsilons ==> r == Failure(MissingEpsilon(col))
    ensures col in t.cells && col in cfg.epsilons && t.cells[col].Strings? ==> r == Failure(NotNumeric(col))
  {
    if col !in t.cells then Success(t)
    else if col !in cfg.epsilons then Failure(MissingEpsilon(col))
    else
      match t.cells[col]
      case Strings(_) => Failure(NotNumeric(col))
      case Numbers(xs) =>
        match ApplyDifferentialPrivacy(xs, cfg.epsilons[col], UnitDraws(cfg, col, |xs|))
        case Failure(e) => Failure(e)
        case Success(ys) => Success(WithColumn(t, col, Numbers(ys)))
  }

  /** Lines 126-128: the listed numeric columns are noised in turn. The table reached
      is returned with the error that stopped the loop, if any: columns noised before
      the error stay noised. */
  function NoiseColumns(t: Table, cols: seq<string>, cfg: Config): (r: (Table, Option<Error>))
    requires WellFormed(t)
    ensures WellFormed(r.0) && r.0.columns == t.columns && r.0.rows == t.rows
    ensures forall c :: c in t.cells && t.cells[c].Strings? ==> r.0.cells[c] == t.cells[c]
    ensures forall c :: c in t.cells && t.cells[c].Numbers? ==> r.0.cells[c].Numbers?
    ensures forall c :: c in t.cells && c !in cols ==> r.0.cells[c] == t.cells[c]
    ensures r.1.None? && Distinct(cols) ==> forall c :: c in cols && c in t.cells ==> NoisedFrom(t, r.0, c, cfg)
    decreases |cols|
  {
    if cols == [] then (t, None)
    else
      match NoiseColumn(t, cols[0], cfg)
      case Failure(e) => (t, Some(e))
      case Success(next) =>
        assert forall c :: c !in cols ==> c != cols[0] && c !in cols[1..];
        var r := NoiseColumns(next, cols[1..], cfg);
        assert r.1.None? && Distinct(cols) ==> forall c :: c in cols && c in t.cells ==> NoisedFrom(t, r.0, c, cfg) by {
          if r.1.None? && Distinct(cols) {
            DistinctTail(cols);
            NoisedAfterStep(t, next, r.0, cols, cfg);
          }
        }
        r
  }

  /** One step of the noise loop over distinct columns: the first column is noised
      now and never again, the others later from their unchanged values. */
  lemma NoisedAfterStep(t: Table, next: Table, r: Table, cols: seq<string>, cfg: Config)
    requires WellFormed(t) && cols != [] && cols[0] !in cols[1..]
    requires NoiseColumn(t, cols[0], cfg) == Success(next)
    requires forall c :: c in t.cells && c !in cols[1..] ==> c in r.cells && r.cells[c] == next.cells[c]
    requires forall c :: c in cols[1..] && c in next.cells ==> NoisedFrom(next, r, c, cfg)
    ensures forall c :: c in cols && c in t.cells ==> NoisedFrom(t, r, c, cfg)
  {
    forall c | c in cols && c in t.cells ensures NoisedFrom(t, r, c, cfg) {
      if c != cols[0] {
        assert c in cols[1..];
        assert next.cells[c] == t.cells[c];
      }
    }
  }

  /** `[synthetic_value(col) for _ in range(len(df))]`: row i holds what the generator
      of the column name's domain yields for that row's draw. */
  function FakeValues(col: string, rows: nat, cfg: Config): (fakes: seq<string>)
    ensures |fakes| == rows
    ensures forall i :: 0 <= i < rows ==> fakes[i] == cfg.faker(ValueDomain(col), cfg.draw(col, i))
  {
    seq(rows, i requires 0 <= i < rows => SyntheticValue(col, cfg.faker, cfg.draw(col, i)))
  }

  /** The method behind a dialog choice (lines 147-164). */
  function StrategyFor(choice: Choice, col: string, rows: nat, cfg: Config): (s: Strategy)
    ensures Fits(s, rows)
    ensures choice.ChoseSuppression? <==> s == Suppression
    ensures choice.ChoseGeneralization? ==> s == Generalization(choice.level)
    ensures s.Generalization? ==> choice.ChoseGeneralization?
    ensures choice.ChoseSyntheticReplacement? <==> s.SyntheticReplacement?
    ensures s.SyntheticReplacement? ==>
      forall i :: 0 <= i < rows ==> s.fakes[i] == cfg.faker(ValueDomain(col), cfg.draw(col, i))
  {
    match choice
    case ChoseSuppression => Suppression
    case ChoseGeneralization(level) => Generalization(level)
    case ChoseSyntheticReplacement => SyntheticReplacement(FakeValues(col, rows, cfg))
  }

  /** `after` keeps the length of `before` and its value in every row not flagged. */
  ghost predicate SafeRowsKept(before: seq<string>, after: seq<string>, risky: seq<bool>)
  {
    |after| == |before| && forall i :: 0 <= i < |before| && i < |risky| && !risky[i] ==> after[i] == before[i]
  }

  /** What the redaction loop leaves in one string column (lines 136-164): with a
      confirmed method, the column with its risky rows rewritten by that method;
      without one, the column as it was. */
  function Redacted(values: seq<string>, col: string, risky: seq<bool>, cfg: Config): (r: seq<string>)
    requires |risky| == |values|
    ensures SafeRowsKept(values, r, risky)
    ensures col !in cfg.choices ==> r == values
    ensures col in cfg.choices ==> forall i :: 0 <= i < |values| && risky[i] ==>
      r[i] == Replacement(StrategyFor(cfg.choices[col], col, |values|, cfg), values[i], i)
  {
    if col !in cfg.choices then values
    else Redact(values, risky, StrategyFor(cfg.choices[col], col, |values|, cfg))
  }

  /** Lines 136-164 for one string column: its confirmed method rewrites its risky rows;
      without a confirmed method the column stays as it is. */
  function RedactColumn(t: Table, col: string, risky: seq<bool>, cfg: Config): (r: Table)
    requires WellFormed(t) && col in t.cells && t.cells[col].Strings? && |risky| == t.rows
    ensures WellFormed(r) && r.columns == t.columns && r.rows == t.rows
    ensures forall c :: c in t.cells && c != col ==> r.cells[c] == t.cells[c]
    ensures r.cells[col] == Strings(Redacted(t.cells[col].ss, col, risky, cfg))
  {
    if col !in cfg.choices then t
    else
      var s := StrategyFor(cfg.choices[col], col, t.rows, cfg);
      WithColumn(t, col, Strings(Redact(t.cells[col].ss, risky, s)))
  }

  /** The redaction loop over the string columns, all with the same flags: a column
      listed once ends up as `Redacted` makes it. */
  function RedactAll(t: Table, cols: seq<string>, risky: seq<bool>, cfg: Config): (r: Table)
    requires WellFormed(t) && |risky| == t.rows
    requires forall c :: c in cols ==> c in t.cells && t.cells[c].Strings?
    ensures WellFormed(r) && r.columns == t.columns && r.rows == t.rows
    ensures forall c :: c in t.cells && c !in cols ==> r.cells[c] == t.cells[c]
    ensures forall c :: c in cols ==> r.cells[c].Strings? && SafeRowsKept(t.cells[c].ss, r.cells[c].ss, risky)
    ensures Distinct(cols) ==>
      forall c :: c in cols ==> r.cells[c] == Strings(Redacted(t.cells[c].ss, c, risky, cfg))
    decreases |cols|
  {
    if cols == [] then t
    else
      var next := RedactColumn(t, cols[0], risky, cfg);
      var r := RedactAll(next, cols[1..], risky, cfg);
      assert forall c :: c in cols ==> r.cells[c].Strings? && SafeRowsKept(t.cells[c].ss, r.cells[c].ss, risky) by {
        SafeAfterStep(t, next, r, cols, risky, cfg);
      }
      assert Distinct(cols) ==>
        forall c :: c in cols ==> r.cells[c] == Strings(Redacted(t.cells[c].ss, c, risky, cfg)) by {
        if Distinct(cols) {
          DistinctTail(cols);
          RedactedAfterStep(t, next, r, cols, risky, cfg);
        }
      }
      r
  }

  /** One step of the redaction loop over distinct columns: the first column is
      redacted now and never again, the others are redacted later from their
      unchanged values. */
  lemma RedactedAfterStep(t: Table, next: Table, r: Table, cols: seq<string>, risky: seq<bool>, cfg: Config)
    requires WellFormed(t) && |risky| == t.rows && cols != [] && cols[0] !in cols[1..]
    requires forall c :: c in cols ==> c in t.cells && t.cells[c].Strings?
    requires next == RedactColumn(t, cols[0], risky, cfg)
    requires forall c :: c in cols ==> c in r.cells && c in next.cells && next.cells[c].Strings?
    requires r.cells[cols[0]] == next.cells[cols[0]]
    requires forall c :: c in cols[1..] ==> r.cells[c] == Strings(Redacted(next.cells[c].ss, c, risky, cfg))
    ensures forall c :: c in cols ==> r.cells[c] == Strings(Redacted(t.cells[c].ss, c, risky, cfg))
  {
    forall c | c in cols ensures r.cells[c] == Strings(Redacted(t.cells[c].ss, c, risky, cfg)) {
      if c != cols[0] {
        assert c in cols[1..];
        assert next.cells[c] == t.cells[c];
      }
    }
  }

  /** One step of the redaction loop: rows not flagged survive the first column's
      redaction now and every column's redaction later. */
  lemma SafeAfterStep(t: Table, next: Table, r: Table, cols: seq<string>, risky: seq<bool>, cfg: Config)
    requires WellFormed(t) && |risky| == t.rows && cols != []
    requires forall c :: c in cols ==> c in t.cells && t.cells[c].Strings?
    requires next == RedactColumn(t, cols[0], risky, cfg)
    requires forall c :: c in cols ==> c in r.cells && c in next.cells && next.cells[c].Strings?
    requires forall c :: c in cols && c !in cols[1..] ==> r.cells[c] == next.cells[c]
    requires forall c :: c in cols[1..] ==> r.cells[c].Strings? && SafeRowsKept(next.cells[c].ss, r.cells[c].ss, risky)
    ensures forall c :: c in cols ==> r.cells[c].Strings? && SafeRowsKept(t.cells[c].ss, r.cells[c].ss, risky)
  {
    forall c | c in cols ensures r.cells[c].Strings? && SafeRowsKept(t.cells[c].ss, r.cells[c].ss, risky) {
      if c != cols[0] {
        assert c in cols[1..];
        assert next.cells[c] == t.cells[c];
      }
    }
  }

  lemma DistinctTail(cols: seq<string>)
    requires cols != [] && Distinct(cols)
    ensures Distinct(cols[1..]) && cols[0] !in cols[1..]
  {
    assert forall i :: 0 <= i < |cols[1..]| ==> cols[1..][i] == cols[i + 1];
  }

  /** One whole run on a loaded table: the table it leaves behind and how it ends. */
  function Anonymize(t: Table, numericalEntry: string, stringEntry: string, k: Option<int>, cfg: Config)
    : (r: (Table, Outcome))
    requires WellFormed(t)
    ensures WellFormed(r.0) && r.0.columns == t.columns && r.0.rows == t.rows
    ensures k.None? ==> r == (t, Failed(InvalidK))
    ensures forall c :: c in t.cells && c !in ParseColumnList(numericalEntry) && c !in ParseColumnList(stringEntry) ==>
      r.0.cells[c] == t.cells[c]
    ensures forall c :: c in t.cells && t.cells[c].Strings? && c !in ParseColumnList(stringEntry) ==>
      r.0.cells[c] == t.cells[c]
  {
    var numericalCols := ParseColumnList(numericalEntry);
    var stringCols := ParseColumnList(stringEntry);
    if k.None? then (t, Failed(InvalidK))
    else
      var noised := NoiseColumns(t, numericalCols, cfg);
      if noised.1.Some? then (noised.0, Failed(noised.1.value))
      else
        match ClassifyRisk(noised.0, stringCols, k.value)
        case Failure(e) => (noised.0, Failed(e))
        case Success(risky) => (RedactAll(noised.0, stringCols, risky, cfg), Done)
  }

  /** Noise never changes a text column, so the rows' keys are those of the table
      before the run. */
  lemma NoiseKeepsKeys(t: Table, numericalCols: seq<string>, cols: seq<string>, cfg: Config)
    requires WellFormed(t)
    requires forall c :: c in cols ==> c in t.cells && t.cells[c].Strings?
    ensures var noised := NoiseColumns(t, numericalCols, cfg).0;
      (forall c :: c in cols ==> c in noised.cells && noised.cells[c].Strings?)
      && RowKeys(noised, cols) == RowKeys(t, cols)
  {
    var noised := NoiseColumns(t, numericalCols, cfg).0;
    assert forall c :: c in cols ==> noised.cells[c] == t.cells[c];
    var a, b := RowKeys(noised, cols), RowKeys(t, cols);
    forall i | 0 <= i < t.rows ensures a[i] == b[i] {
      assert |a[i]| == |b[i]| == |cols|;
      forall j | 0 <= j < |cols| ensures a[i][j] == b[i][j] {
        assert cols[j] in cols;
      }
    }
  }

  /** A completed run changes a text column only in the rows whose group, under the
      listed string columns of the table as it was, is smaller than k. */
  lemma RunRedactsOnlyRiskyRows(t: Table, numericalEntry: string, stringEntry: string, k: int, cfg: Config)
    requires WellFormed(t)
    requires Anonymize(t, numericalEntry, stringEntry, Some(k), cfg).1 == Done
    ensures var cols := ParseColumnList(stringEntry);
      && cols != []
      && (forall c :: c in cols ==> c in t.cells && t.cells[c].Strings?)
      && var out := Anonymize(t, numericalEntry, stringEntry, Some(k), cfg).0;
         forall c :: c in t.cells && t.cells[c].Strings? ==>
           out.cells[c].Strings? && SafeRowsKept(t.cells[c].ss, out.cells[c].ss, RiskyRows(RowKeys(t, cols), k))
  {
    var cols := ParseColumnList(stringEntry);
    var numericalCols := ParseColumnList(numericalEntry);
    var noised := NoiseColumns(t, numericalCols, cfg);
    var risk := ClassifyRisk(noised.0, cols, k);
    assert noised.1.None? && risk.Success?;
    var out := RedactAll(noised.0, cols, risk.value, cfg);
    assert Anonymize(t, numericalEntry, stringEntry, Some(k), cfg).0 == out;
    NoiseKeepsKeys(t, numericalCols, cols, cfg);
    assert risk.value == RiskyRows(RowKeys(t, cols), k);
    forall c | c in t.cells && t.cells[c].Strings?
      ensures out.cells[c].Strings? && SafeRowsKept(t.cells[c].ss, out.cells[c].ss, risk.value)
    {
      assert noised.0.cells[c] == t.cells[c];
    }
  }

  /** A completed run leaves each listed numeric column of the table, when the list
      names it once, noised once from its values before the run. */
  lemma RunNoisesListedColumns(t: Table, numericalEntry: string, stringEntry: string, k: int, cfg: Config)
    requires WellFormed(t)
    requires Anonymize(t, numericalEntry, stringEntry, Some(k), cfg).1 == Done
    requires Distinct(ParseColumnList(numericalEntry))
    ensures var out := Anonymize(t, numericalEntry, stringEntry, Some(k), cfg).0;
      forall c :: c in ParseColumnList(numericalEntry) && c in t.cells ==> NoisedFrom(t, out, c, cfg)
  {
    var cols := ParseColumnList(stringEntry);
    var numericalCols := ParseColumnList(numericalEntry);
    var noised := NoiseColumns(t, numericalCols, cfg);
    var risk := ClassifyRisk(noised.0, cols, k);
    assert noised.1.None? && risk.Success?;
    var out := RedactAll(noised.0, cols, risk.value, cfg);
    assert Anonymize(t, numericalEntry, stringEntry, Some(k), cfg).0 == out;
    forall c | c in numericalCols && c in t.cells ensures NoisedFrom(t, out, c, cfg) {
      assert noised.0.cells[c].Numbers?;
      assert c !in cols;
    }
  }

  /** A completed run leaves each listed string column as its confirmed method makes
      it from the column's values before the run, the rows flagged by the groups of
      the table as it was; the listed string columns are distinct. */
  lemma RunRedactsListedColumns(t: Table, numericalEntry: string, stringEntry: string, k: int, cfg: Config)
    requires WellFormed(t)
    requires Anonymize(t, numericalEntry, stringEntry, Some(k), cfg).1 == Done
    ensures var cols := ParseColumnList(stringEntry);
      && Distinct(cols)
      && (forall c :: c in cols ==> c in t.cells && t.cells[c].Strings?)
      && var out := Anonymize(t, numericalEntry, stringEntry, Some(k), cfg).0;
         var risky := RiskyRows(RowKeys(t, cols), k);
         forall c :: c in cols ==> c in out.cells && out.cells[c] == Strings(Redacted(t.cells[c].ss, c, risky, cfg))
  {
    var cols := ParseColumnList(stringEntry);
    var numericalCols := ParseColumnList(numericalEntry);
    var noised := NoiseColumns(t, numericalCols, cfg);
    var risk := ClassifyRisk(noised.0, cols, k);
    assert noised.1.None? && risk.Success?;
    NoiseKeepsKeys(t, numericalCols, cols, cfg);
    assert forall c :: c in cols ==> noised.0.cells[c] == t.cells[c];
  }

  /** A completed run rewrites a risky row of a listed string column with a confirmed
      method to "*", to the value with the characters from the chosen level on
      masked, or to the generated value of the column name's domain for that row. */
  lemma RunRewritesRiskyRows(t: Table, numericalEntry: string, stringEntry: string, k: int, cfg: Config, c: string)
    requires WellFormed(t)
    requires Anonymize(t, numericalEntry, stringEntry, Some(k), cfg).1 == Done
    requires c in ParseColumnList(stringEntry) && c in cfg.choices
    ensures var cols := ParseColumnList(stringEntry);
      var out := Anonymize(t, numericalEntry, stringEntry, Some(k), cfg).0;
      && (forall d :: d in cols ==> d in t.cells && t.cells[d].Strings?)
      && c in out.cells && out.cells[c].Strings? && |out.cells[c].ss| == t.rows
      && var risky := RiskyRows(RowKeys(t, cols), k);
         forall i :: 0 <= i < t.rows && risky[i] ==>
           && (cfg.choices[c].ChoseSuppression? ==> out.cells[c].ss[i] == "*")
           && (cfg.choices[c].ChoseGeneralization? ==>
                 out.cells[c].ss[i] == Generalize(t.cells[c].ss[i], cfg.choices[c].level))
           && (cfg.choices[c].ChoseSyntheticReplacement? ==>
                 out.cells[c].ss[i] == cfg.faker(ValueDomain(c), cfg.draw(c, i)))
  {
    RunRedactsListedColumns(t, numericalEntry, stringEntry, k, cfg);
    var cols := ParseColumnList(stringEntry);
    var risky := RiskyRows(RowKeys(t, cols), k);
    var out := Anonymize(t, numericalEntry, stringEntry, Some(k), cfg).0;
    var values := t.cells[c].ss;
    var s := StrategyFor(cfg.choices[c], c, |values|, cfg);
    forall i | 0 <= i < t.rows && risky[i] && cfg.choices[c].ChoseGeneralization?
      ensures out.cells[c].ss[i] == Generalize(values[i], cfg.choices[c].level)
    {
      var w := Replacement(s, values[i], i);
      assert out.cells[c].ss[i] == w;
      assert w == Generalize(values[i], cfg.choices[c].level);
    }
  }

  /** With k at most 1 a completed run leaves every text column as it was. */
  lemma RunWithSmallKKeepsText(t: Table, numericalEntry: string, stringEntry: string, k: int, cfg: Config)
    requires WellFormed(t) && k <= 1
    requires Anonymize(t, numericalEntry, stringEntry, Some(k), cfg).1 == Done
    ensures var out := Anonymize(t, numericalEntry, stringEntry, Some(k), cfg).0;
      forall c :: c in t.cells && t.cells[c].Strings? ==> out.cells[c] == t.cells[c]
  {
    RunRedactsOnlyRiskyRows(t, numericalEntry, stringEntry, k, cfg);
    var cols := ParseColumnList(stringEntry);
    var keys := RowKeys(t, cols);
    NoRiskBelowTwo(keys, k);
    var out := Anonymize(t, numericalEntry, stringEntry, Some(k), cfg).0;
    forall c | c in t.cells && t.cells[c].Strings? ensures out.cells[c] == t.cells[c] {
      assert out.cells[c].ss == t.cells[c].ss;
    }
  }

  /** A run that stops with an error has redacted nothing: every text column is as it
      was, and only listed numeric columns can have been noised. */
  lemma FailedRunRedactsNothing(t: Table, numericalEntry: string, stringEntry: string, k: Option<int>, cfg: Config)
    requires WellFormed(t)
    requires Anonymize(t, numericalEntry, stringEntry, k, cfg).1.Failed?
    ensures var out := Anonymize(t, numericalEntry, stringEntry, k, cfg).0;
      && (forall c :: c in t.cells && t.cells[c].Strings? ==> out.cells[c] == t.cells[c])
      && (forall c :: c in t.cells && c !in ParseColumnList(numericalEntry) ==> out.cells[c] == t.cells[c])
  {
    if k.Some? {
      var noised := NoiseColumns(t, ParseColumnList(numericalEntry), cfg);
      if noised.1.None? {
        assert ClassifyRisk(noised.0, ParseColumnList(stringEntry), k.value).Failure?;
      }
      assert Anonymize(t, numericalEntry, stringEntry, k, cfg).0 == noised.0;
    }
  }

  class AnonymizerApp {
    var df: Option<Table>
    /** The `count` column the merge adds for the duration of a run; empty otherwise. */
    var counts: seq<nat>

    ghost predicate Valid()
      reads this
    {
      (df.Some? ==> WellFormed(df.value)) && counts == []
    }

    constructor ()
      ensures Valid() && df == None
    {
      df := None;
      counts := [];
    }

    /** Line 92 with the file already read into a table. */
    method UploadFile(t: Table)
      requires Valid() && WellFormed(t)
      modifies this
      ensures Valid() && df == Some(t)
    {
      df := Some(t);
    }

    /** Lines 126-128. */
    method ApplyNoise(cols: seq<string>, cfg: Config) returns (err: Option<Error>)
      requires df.Some? && WellFormed(df.value)
      modifies this`df
      ensures df.Some? && (df.value, err) == NoiseColumns(old(df.value), cols, cfg)
    {
      var i := 0;
      while i < |cols|
        invariant 0 <= i <= |cols|
        invariant df.Some? && WellFormed(df.value)
        invariant NoiseColumns(old(df.value), cols, cfg) == NoiseColumns(df.value, cols[i..], cfg)
      {
        assert cols[i..][1..] == cols[i + 1..];
        var step := NoiseColumn(df.value, cols[i], cfg);
        if step.Failure? {
          return Some(step.error);
        }
        df := Some(step.value);
        i := i + 1;
      }
      err := None;
    }

    /** Lines 131-133: the merge adds the group size of every row as `count`, and the
        rows whose count is below k are flagged. */
    method FindRiskyRows(cols: seq<string>, k: int) returns (r: Result<seq<bool>>)
      requires df.Some? && WellFormed(df.value)
      modifies this`counts
      ensures r == ClassifyRisk(df.value, cols, k)
      ensures r.Success? ==> counts == GroupSizes(RowKeys(df.value, cols))
      ensures r.Failure? ==> counts == old(counts)
    {
      var t := df.value;
      if cols == [] {
        return Failure(NoGroupKeys);
      }
      var bad := CheckGroupColumns(t, cols);
      if bad.Some? {
        return Failure(bad.value);
      }
      if !Distinct(cols) {
        return Failure(DuplicateGroupColumn);
      }
      var keys := RowKeys(t, cols);
      var sizes := GroupSizes(keys);
      counts := sizes;
      var risky := seq(|sizes|, i requires 0 <= i < |sizes| => sizes[i] < k);
      assert risky == RiskyRows(keys, k);
      r := Success(risky);
    }

    /** Lines 136-169: each string column in turn gets its confirmed method. */
    method RedactStringColumns(cols: seq<string>, risky: seq<bool>, cfg: Config)
      requires df.Some? && WellFormed(df.value) && |risky| == df.value.rows
      requires forall c :: c in cols ==> c in df.value.cells && df.value.cells[c].Strings?
      modifies this`df
      ensures df == Some(RedactAll(old(df.value), cols, risky, cfg))
    {
      var i := 0;
      while i < |cols|
        invariant 0 <= i <= |cols|
        invariant df.Some? && WellFormed(df.value) && |risky| == df.value.rows
        invariant forall c :: c in cols ==> c in df.value.cells && df.value.cells[c].Strings?
        invariant RedactAll(old(df.value), cols, risky, cfg) == RedactAll(df.value, cols[i..], risky, cfg)
      {
        assert cols[i..][1..] == cols[i + 1..];
        assert cols[i] in cols;
        df := Some(RedactColumn(df.value, cols[i], risky, cfg));
        i := i + 1;
      }
    }

    /** Line 171. */
    method DropCount()
      modifies this`counts
      ensures counts == []
    {
      counts := [];
    }

    /** anonymize_data, with the entries and dialogs as parameters and without the
        final write to a file. */
    method AnonymizeData(numericalEntry: string, stringEntry: string, k: Option<int>, cfg: Config)
      returns (outcome: Outcome)
      requires Valid()
      modifies this
      ensures Valid()
      ensures old(df).None? ==> outcome == Failed(NoFileUploaded) && df == None
      ensures old(df).Some? ==>
        df.Some? && (df.value, outcome) == Anonymize(old(df).value, numericalEntry, stringEntry, k, cfg)
    {
      if df.None? {
        return Failed(NoFileUploaded);
      }
      var numericalCols := ParseColumnList(numericalEntry);
      var stringCols := ParseColumnList(stringEntry);
      if k.None? {
        return Failed(InvalidK);
      }
      var err := ApplyNoise(numericalCols, cfg);
      if err.Some? {
        return Failed(err.value);
      }
      var risky := FindRiskyRows(stringCols, k.value);
      if risky.Failure? {
        return Failed(risky.error);
      }
      RedactStringColumns(stringCols, risky.value, cfg);
      DropCount();
      outcome := Done;
    }
  }
}

/** A worked run: four rows from city "X" and one from "Y", k = 2, grouping and
    suppressing by "City" and noising nothing. */
module AnonymizerExample {
  import opened Tables
  import opened Strings
  import opened ColumnList
  import opened Risk
  import opened Anonymizer

  function CityTable(): Table
  {
    Table(["City", "Income"],
          map["City" := Strings(["X", "X", "X", "X", "Y"]),
              "Income" := Numbers([10.0, 20.0, 30.0, 40.0, 50.0])], 5)
  }

  lemma Entries()
    ensures ParseColumnList("") == [] && ParseColumnList("City") == ["City"]
  {
    BlankEntry("");
    assert Join(["City"], ',') == "City";
    ParseJoinedNames(["City"]);
  }

  lemma CityRisk()
    ensures WellFormed(CityTable())
    ensures ClassifyRisk(CityTable(), ["City"], 2) == Success([false, false, false, false, true])
  {
    var t := CityTable();
    assert WellFormed(t);
    var keys := RowKeys(t, ["City"]);
    forall i | 0 <= i < 5 ensures keys[i] == [t.cells["City"].ss[i]] {
      assert |keys[i]| == 1;
    }
    var k4: seq<Key> := [["Y"]];
    var k3: seq<Key> := [["X"]] + k4;
    var k2: seq<Key> := [["X"]] + k3;
    var k1: seq<Key> := [["X"]] + k2;
    var k0: seq<Key> := [["X"]] + k1;
    assert keys == k0;
    assert k0[1..] == k1 && k1[1..] == k2 && k2[1..] == k3 && k3[1..] == k4 && k4[1..] == [];
    assert Count(k4, ["X"]) == 0 && Count(k4, ["Y"]) == 1;
    assert Count(k3, ["X"]) == 1 && Count(k3, ["Y"]) == 1;
    assert Count(k2, ["X"]) == 2 && Count(k2, ["Y"]) == 1;
    assert Count(k1, ["X"]) == 3 && Count(k1, ["Y"]) == 1;
    assert Count(k0, ["X"]) == 4 && Count(k0, ["Y"]) == 1;
    assert RiskyRows(keys, 2) == [false, false, false, false, true];
  }

  lemma CitySuppressed(cfg: Config)
    requires cfg.choices == map["City" := ChoseSuppression]
    requires WellFormed(CityTable())
    ensures RedactAll(CityTable(), ["City"], [false, false, false, false, true], cfg)
         == CityTable().(cells := CityTable().cells["City" := Strings(["X", "X", "X", "X", "*"])])
  {
    var t := CityTable();
    var risky := [false, false, false, false, true];
    var out := RedactColumn(t, "City", risky, cfg);
    assert out.cells["City"].ss == ["X", "X", "X", "X", "*"];
    assert RedactAll(t, ["City"], risky, cfg) == out;
  }

  /** Only the lone "Y" row becomes "*"; the numbers are left alone. */
  lemma LoneCityIsSuppressed(cfg: Config)
    requires cfg.choices == map["City" := ChoseSuppression]
    ensures WellFormed(CityTable())
    ensures Anonymize(CityTable(), "", "City", Some(2), cfg)
         == (CityTable().(cells := CityTable().cells["City" := Strings(["X", "X", "X", "X", "*"])]), Done)
  {
    Entries();
    CityRisk();
    CitySuppressed(cfg);
    assert NoiseColumns(CityTable(), [], cfg) == (CityTable(), None);
  }
}
