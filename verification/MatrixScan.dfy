/** Turning scanned matrices into key events, one per call, and withholding ghosted rows. */
module MatrixModel {
  import opened Bits

  /** The matrix dimensions, which positions carry a real key, and whether ghosts are looked for. */
  datatype Config = Config(rows: nat, cols: nat, isKey: (nat, nat) -> bool, ghosts: bool)

  /** A switch that changed, or the tick sent when none did. */
  datatype Out = Switch(row: nat, col: nat, pressed: bool) | Tick

  predicate RealPressed(cfg: Config, m: seq<nat>, r: nat, c: nat)
    requires r < |m|
  {
    c < cfg.cols && cfg.isKey(r, c) && Digit(m[r], c)
  }

  /** Both rows have real keys pressed in the two columns. */
  predicate Shared(cfg: Config, m: seq<nat>, r: nat, i: nat, a: nat, b: nat)
    requires r < |m| && i < |m|
  {
    && a < b
    && RealPressed(cfg, m, r, a) && RealPressed(cfg, m, r, b)
    && RealPressed(cfg, m, i, a) && RealPressed(cfg, m, i, b)
  }

  /** Two rows with real keys pressed in the same two columns cannot be told from ghosts. */
  ghost predicate Ghosted(cfg: Config, m: seq<nat>, r: nat)
    requires r < |m|
  {
    exists i, a, b :: 0 <= i < |m| && i != r && Shared(cfg, m, r, i, a, b)
  }

  /** The digits of a row that are real keys. */
  function RealKeys(cfg: Config, r: nat, row: nat, c: nat): nat {
    if c == 0 then 0 else RealKeys(cfg, r, row, c - 1) + if cfg.isKey(r, c - 1) && Digit(row, c - 1) then Weight(c - 1) else 0
  }

  lemma {:induction false} RealKeysBound(cfg: Config, r: nat, row: nat, c: nat)
    ensures RealKeys(cfg, r, row, c) < Weight(c)
  {
    if c > 0 {
      RealKeysBound(cfg, r, row, c - 1);
    }
  }

  /** Adding a power above a number sets exactly that digit. */
  lemma {:induction false} AddDigit(x: nat, c: nat, i: nat)
    requires x < Weight(c)
    ensures Digit(x + Weight(c), i) <==> i == c || Digit(x, i)
    ensures Digit(x, i) ==> i < c
  {
    if c == 0 {
      WeightDigits(0, i);
      NoDigits(i);
    } else if i > 0 {
      assert (x + Weight(c)) / 2 == x / 2 + Weight(c - 1);
      AddDigit(x / 2, c - 1, i - 1);
    }
  }

  lemma {:induction false} RealKeysDigits(cfg: Config, r: nat, row: nat, c: nat, i: nat)
    ensures Digit(RealKeys(cfg, r, row, c), i) <==> i < c && cfg.isKey(r, i) && Digit(row, i)
  {
    if c == 0 {
      NoDigits(i);
    } else {
      RealKeysDigits(cfg, r, row, c - 1, i);
      RealKeysBound(cfg, r, row, c - 1);
      AddDigit(RealKeys(cfg, r, row, c - 1), c - 1, i);
    }
  }

  /** Rows share two real pressed columns exactly when their common real keys have two ones. */
  lemma SharedColumns(cfg: Config, m: seq<nat>, r: nat, i: nat)
    requires r < |m| && i < |m|
    ensures Pop(And(RealKeys(cfg, i, m[i], cfg.cols), RealKeys(cfg, r, m[r], cfg.cols))) >= 2
       <==> exists a, b :: Shared(cfg, m, r, i, a, b)
  {
    var x, y := RealKeys(cfg, i, m[i], cfg.cols), RealKeys(cfg, r, m[r], cfg.cols);
    forall c: nat
      ensures Digit(And(x, y), c) <==> RealPressed(cfg, m, i, c) && RealPressed(cfg, m, r, c)
    {
      AndDigits(x, y, c);
      RealKeysDigits(cfg, i, m[i], cfg.cols, c);
      RealKeysDigits(cfg, r, m[r], cfg.cols, c);
    }
    var z := And(x, y);
    if Pop(z) >= 2 {
      var a, b := TwoPositions(z);
      assert Shared(cfg, m, r, i, a, b);
    }
    if a, b :| Shared(cfg, m, r, i, a, b) {
      TwoOnes(z, a, b);
    }
  }

  lemma GhostNeedsTwo(cfg: Config, m: seq<nat>, r: nat)
    requires r < |m| && Ghosted(cfg, m, r)
    ensures Pop(RealKeys(cfg, r, m[r], cfg.cols)) >= 2
  {
    var i, a, b :| 0 <= i < |m| && i != r && Shared(cfg, m, r, i, a, b);
    RealKeysDigits(cfg, r, m[r], cfg.cols, a);
    RealKeysDigits(cfg, r, m[r], cfg.cols, b);
    TwoOnes(RealKeys(cfg, r, m[r], cfg.cols), a, b);
  }

  // ---------- One scan ----------

  ghost predicate Withheld(cfg: Config, m: seq<nat>, r: nat)
    requires r < |m|
  {
    cfg.ghosts && Ghosted(cfg, m, r)
  }

  predicate Changed(prev: seq<nat>, m: seq<nat>, r: nat, c: nat)
    requires r < |prev| == |m|
  {
    Digit(m[r], c) != Digit(prev[r], c)
  }

  /** A change that may be reported. */
  ghost predicate Reportable(cfg: Config, prev: seq<nat>, m: seq<nat>, r: nat, c: nat)
    requires |prev| == |m|
  {
    r < |m| && c < cfg.cols && !Withheld(cfg, m, r) && Changed(prev, m, r, c)
  }

  predicate Before(r: nat, c: nat, r': nat, c': nat) { r < r' || (r == r' && c < c') }

  /**
    A scan reports the first reportable change in row and column order, and remembers it; if there
    is none it sends a tick and remembers nothing new.
  */
  ghost predicate Scans(cfg: Config, prev: seq<nat>, m: seq<nat>, prev': seq<nat>, out: Out)
    requires |prev| == |m|
  {
    match out
    case Tick =>
      prev' == prev && forall r, c :: 0 <= r && 0 <= c ==> !Reportable(cfg, prev, m, r, c)
    case Switch(r, c, pressed) =>
      && Reportable(cfg, prev, m, r, c)
      && (forall r', c' :: 0 <= r' && 0 <= c' && Before(r', c', r, c) ==> !Reportable(cfg, prev, m, r', c'))
      && pressed == Digit(m[r], c)
      && prev' == prev[r := Xor(prev[r], Weight(c))]
  }

  /** A scan changes at most the reported bit of what is remembered, and sets it as scanned. */
  lemma ScanSets(cfg: Config, prev: seq<nat>, m: seq<nat>, prev': seq<nat>, out: Out)
    requires |prev| == |m| && Scans(cfg, prev, m, prev', out)
    ensures |prev'| == |prev|
    ensures out.Switch? ==> !Digit(prev[out.row], out.col) == out.pressed
    ensures forall r, c :: 0 <= r < |prev| && 0 <= c ==>
      Digit(prev'[r], c) == if out.Switch? && out.row == r && out.col == c then out.pressed else Digit(prev[r], c)
  {
    if out.Switch? {
      forall c: nat
        ensures Digit(prev'[out.row], c) == if out.col == c then out.pressed else Digit(prev[out.row], c)
      {
        XorDigits(prev[out.row], Weight(out.col), c);
        WeightDigits(out.col, c);
      }
    }
  }

  // ---------- Runs ----------

  /** Successive scans: the matrices scanned, and what was sent. */
  datatype Scan = Scan(matrix: seq<nat>, out: Out)

  /** `prev` is what is remembered after the scans, starting with nothing pressed. */
  ghost predicate Reaches(cfg: Config, scans: seq<Scan>, prev: seq<nat>) {
    if scans == [] then prev == seq(cfg.rows, _ => 0)
    else
      var last := scans[|scans| - 1];
      |last.matrix| == cfg.rows &&
      exists before :: |before| == cfg.rows && Reaches(cfg, scans[..|scans| - 1], before) && Scans(cfg, before, last.matrix, prev, last.out)
  }

  /** The states reported for one key. */
  function KeyLog(scans: seq<Scan>, r: nat, c: nat): seq<bool> {
    if scans == [] then []
    else
      var out := scans[|scans| - 1].out;
      KeyLog(scans[..|scans| - 1], r, c) + if out.Switch? && out.row == r && out.col == c then [out.pressed] else []
  }

  predicate PressReleasePress(log: seq<bool>) {
    forall i :: 0 <= i < |log| ==> log[i] == (i % 2 == 0)
  }

  lemma OneMoreEvent(log: seq<bool>, pressed: bool)
    requires PressReleasePress(log) && pressed == (|log| % 2 == 0)
    ensures PressReleasePress(log + [pressed]) && pressed == (|log + [pressed]| % 2 == 1)
  {
  }

  /**
    Over every sequence of scanned matrices, each key's events strictly alternate press and
    release, beginning with a press, and the last of them is what is remembered of the key.
  */
  lemma {:induction false} EventsReplay(cfg: Config, scans: seq<Scan>, prev: seq<nat>, r: nat, c: nat)
    requires Reaches(cfg, scans, prev) && r < cfg.rows
    ensures |prev| == cfg.rows
    ensures PressReleasePress(KeyLog(scans, r, c))
    ensures Digit(prev[r], c) == (|KeyLog(scans, r, c)| % 2 == 1)
  {
    if scans == [] {
      NoDigits(c);
    } else {
      var last := scans[|scans| - 1];
      var before :| |before| == cfg.rows && Reaches(cfg, scans[..|scans| - 1], before) && Scans(cfg, before, last.matrix, prev, last.out);
      EventsReplay(cfg, scans[..|scans| - 1], before, r, c);
      ScanSets(cfg, before, last.matrix, prev, last.out);
      var log := KeyLog(scans[..|scans| - 1], r, c);
      if last.out.Switch? && last.out.row == r && last.out.col == c {
        OneMoreEvent(log, last.out.pressed);
      } else {
        assert KeyLog(scans, r, c) == log;
      }
    }
  }

  // ---------- Convergence on a stable matrix ----------

  ghost function RowDistance(cfg: Config, prev: seq<nat>, m: seq<nat>, r: nat, c: nat): nat
    requires |prev| == |m|
  {
    if c == 0 then 0
    else RowDistance(cfg, prev, m, r, c - 1) + if Reportable(cfg, prev, m, r, c - 1) then 1 else 0
  }

  /** How many keys are remembered wrongly, rows that are withheld apart. */
  ghost function Distance(cfg: Config, prev: seq<nat>, m: seq<nat>, n: nat): nat
    requires |prev| == |m|
  {
    if n == 0 then 0 else Distance(cfg, prev, m, n - 1) + RowDistance(cfg, prev, m, n - 1, cfg.cols)
  }

  lemma {:induction false} RowStep(cfg: Config, prev: seq<nat>, m: seq<nat>, prev': seq<nat>, out: Out, r: nat, c: nat)
    requires |prev| == |m| && Scans(cfg, prev, m, prev', out) && |prev'| == |prev|
    ensures RowDistance(cfg, prev, m, r, c) == RowDistance(cfg, prev', m, r, c)
            + if out.Switch? && out.row == r && out.col < c then 1 else 0
  {
    if c > 0 {
      RowStep(cfg, prev, m, prev', out, r, c - 1);
      ScanSets(cfg, prev, m, prev', out);
    }
  }

  lemma {:induction false} DistanceStep(cfg: Config, prev: seq<nat>, m: seq<nat>, prev': seq<nat>, out: Out, n: nat)
    requires |prev| == |m| && Scans(cfg, prev, m, prev', out) && |prev'| == |prev|
    ensures Distance(cfg, prev, m, n) == Distance(cfg, prev', m, n) + if out.Switch? && out.row < n then 1 else 0
  {
    if n > 0 {
      DistanceStep(cfg, prev, m, prev', out, n - 1);
      RowStep(cfg, prev, m, prev', out, n - 1, cfg.cols);
    }
  }

  lemma {:induction false} RowDistanceZero(cfg: Config, prev: seq<nat>, m: seq<nat>, r: nat, c: nat)
    requires |prev| == |m|
    ensures RowDistance(cfg, prev, m, r, c) == 0 <==> forall i :: 0 <= i < c ==> !Reportable(cfg, prev, m, r, i)
  {
    if c > 0 {
      RowDistanceZero(cfg, prev, m, r, c - 1);
    }
  }

  lemma {:induction false} DistanceZero(cfg: Config, prev: seq<nat>, m: seq<nat>, n: nat)
    requires |prev| == |m|
    ensures Distance(cfg, prev, m, n) == 0 <==> forall r, c :: 0 <= r < n && 0 <= c < cfg.cols ==> !Reportable(cfg, prev, m, r, c)
  {
    if n > 0 {
      DistanceZero(cfg, prev, m, n - 1);
      RowDistanceZero(cfg, prev, m, n - 1, cfg.cols);
    }
  }

  /**
    One scan of a matrix brings what is remembered one key closer to it, ghosted rows apart, or
    there is nothing left to bring closer and it sends a tick.
  */
  lemma ScanConverges(cfg: Config, prev: seq<nat>, m: seq<nat>, prev': seq<nat>, out: Out)
    requires |prev| == |m| && Scans(cfg, prev, m, prev', out)
    ensures |prev'| == |prev|
    ensures if Distance(cfg, prev, m, |m|) == 0 then out == Tick
            else out.Switch? && Distance(cfg, prev', m, |m|) == Distance(cfg, prev, m, |m|) - 1
  {
    ScanSets(cfg, prev, m, prev', out);
    DistanceStep(cfg, prev, m, prev', out, |m|);
    DistanceZero(cfg, prev, m, |m|);
  }

  /** Scans of one matrix, each starting from what the one before remembered. */
  ghost predicate Stable(cfg: Config, m: seq<nat>, states: seq<seq<nat>>, outs: seq<Out>) {
    && |states| == |outs| + 1
    && (forall i :: 0 <= i < |states| ==> |states[i]| == |m|)
    && forall i :: 0 <= i < |outs| ==> Scans(cfg, states[i], m, states[i + 1], outs[i])
  }

  /**
    While the matrix stays the same, the number of wrongly remembered keys is the number of key
    events sent before only ticks are left, and then every key not withheld is remembered as it is.
  */
  lemma {:induction false} StableConverges(cfg: Config, m: seq<nat>, states: seq<seq<nat>>, outs: seq<Out>, k: nat)
    requires Stable(cfg, m, states, outs) && k < |states|
    ensures var d := Distance(cfg, states[0], m, |m|);
            && Distance(cfg, states[k], m, |m|) == (if k <= d then d - k else 0)
            && (k < |outs| ==> (outs[k].Switch? <==> k < d))
            && (k >= d ==> forall r, c :: 0 <= r < |m| && 0 <= c < cfg.cols && !Withheld(cfg, m, r) ==>
                  Digit(states[k][r], c) == Digit(m[r], c))
  {
    if k > 0 {
      StableConverges(cfg, m, states, outs, k - 1);
      ScanConverges(cfg, states[k - 1], m, states[k], outs[k - 1]);
    }
    if k < |outs| {
      ScanConverges(cfg, states[k], m, states[k + 1], outs[k]);
    }
    DistanceZero(cfg, states[k], m, |m|);
    assert forall r, c :: 0 <= r < |m| && 0 <= c < cfg.cols && !Withheld(cfg, m, r) && !Reportable(cfg, states[k], m, r, c) ==>
      Digit(states[k][r], c) == Digit(m[r], c);
  }
}

module MatrixScan {
  import opened Bits
  import opened MatrixModel

  class MatrixScanner {
    const cfg: Config
    const previous: array<nat>
    var log: seq<Out>

    predicate Valid() {
      previous.Length == cfg.rows
    }

    constructor (cfg: Config)
      ensures Valid() && fresh(previous) && this.cfg == cfg
      ensures previous[..] == seq(cfg.rows, _ => 0) && log == []
    {
      this.cfg := cfg;
      previous := new nat[cfg.rows](_ => 0);
      log := [];
    }

    method GetRealKeys(row: nat, rowdata: nat) returns (out: nat)
      ensures out == RealKeys(cfg, row, rowdata, cfg.cols)
    {
      out := 0;
      for col := 0 to cfg.cols
        invariant out == RealKeys(cfg, row, rowdata, col)
      {
        if cfg.isKey(row, col) && Digit(rowdata, col) {
          // the bit is above those set so far, so adding it is the source's bitwise or
          out := out + Weight(col);
        }
      }
    }

    static method PopcountMoreThanOne(rowdata: nat) returns (more: bool)
      ensures more == (Pop(rowdata) >= 2)
    {
      if rowdata == 0 {
        return false;
      }
      ClearLowest(rowdata);
      return And(rowdata, rowdata - 1) != 0;
    }

    method HasGhostInRow(matrix: seq<nat>, row: nat, rowdata: nat) returns (ghosted: bool)
      requires row < |matrix| && rowdata == matrix[row]
      ensures ghosted == Ghosted(cfg, matrix, row)
    {
      var mine := GetRealKeys(row, rowdata);
      var several := PopcountMoreThanOne(mine);
      if !several {
        if Ghosted(cfg, matrix, row) {
          GhostNeedsTwo(cfg, matrix, row);
        }
        return false;
      }
      for i := 0 to |matrix|
        invariant forall j, a, b :: 0 <= j < i && j != row && 0 <= a && 0 <= b ==> !Shared(cfg, matrix, row, j, a, b)
      {
        if i != row {
          var theirs := GetRealKeys(i, matrix[i]);
          SharedColumns(cfg, matrix, row, i);
          var common := PopcountMoreThanOne(And(theirs, mine));
          if common {
            return true;
          }
        }
      }
      return false;
    }

    /** One call of the scan task on the matrix as it now is. */
    method MatrixScanTask(matrix: seq<nat>)
      requires Valid() && |matrix| == cfg.rows
      modifies this`log, previous
      ensures |log| == |old(log)| + 1 && log[..|old(log)|] == old(log)
      ensures Scans(cfg, old(previous[..]), matrix, previous[..], log[|log| - 1])
    {
      for r := 0 to cfg.rows
        invariant log == old(log) && previous[..] == old(previous[..])
        invariant forall r', c' :: 0 <= r' < r && 0 <= c' ==> !Reportable(cfg, previous[..], matrix, r', c')
      {
        var row := matrix[r];
        var change := Xor(row, previous[r]);
        forall c: nat
          ensures Digit(change, c) <==> Changed(previous[..], matrix, r, c)
        {
          XorDigits(row, previous[r], c);
          NoDigits(c);
        }
        if change == 0 {
          NothingChanged(change);
          continue;
        }
        if cfg.ghosts {
          var ghosted := HasGhostInRow(matrix, r, row);
          if ghosted {
            continue;
          }
        }
        for c := 0 to cfg.cols
          invariant log == old(log) && previous[..] == old(previous[..])
          invariant forall c' :: 0 <= c' < c ==> !Changed(previous[..], matrix, r, c')
        {
          if Digit(change, c) {
            log := log + [Switch(r, c, Digit(row, c))];
            previous[r] := Xor(previous[r], Weight(c));
            return;
          }
        }
      }
      log := log + [Tick];
    }
  }

  lemma NothingChanged(change: nat)
    requires change == 0
    ensures forall c: nat :: !Digit(change, c)
  {
    forall c: nat
      ensures !Digit(change, c)
    {
      NoDigits(c);
    }
  }
}
