/** The k-nearest-neighbours classifier: training maps each distinct target
    value to an integer code, prediction takes the k training rows nearest
    to each query row and returns the target value whose code has the most
    votes among them, the smaller code winning a tie. */
module Classification {
  import opened Seqs
  import opened Cells
  import opened Frames
  import opened Neighbours

  // ---------------------------------------------------------------------
  // Training: from target values to codes

  /** The code the scan over the label mapping gives value v, starting at
      entry e: entries are visited in code order and the first one equal
      to v gives its code; asking a null entry whether it equals v throws;
      with no match the array keeps its initial 0. */
  function CodeFrom(mapping: seq<Cell>, v: Cell, e: nat): Result<int>
    requires e <= |mapping|
    decreases |mapping| - e
  {
    if e == |mapping| then Ok(0)
    else if mapping[e].Null? then Err(NullPointer)
    else if mapping[e] == v then Ok(e)
    else CodeFrom(mapping, v, e + 1)
  }

  /** The code of row i. The target list is read before the first entry is
      compared, so a row past its end throws before a null entry does; with
      no entry at all nothing is read. */
  function RowCodeOf(mapping: seq<Cell>, targets: seq<Cell>, i: nat): Result<int> {
    if mapping == [] then Ok(0)
    else if i >= |targets| then Err(OutOfRange)
    else CodeFrom(mapping, targets[i], 0)
  }

  /** The codes of the first m rows, or the error of the first row that
      fails. */
  function CodesOf(mapping: seq<Cell>, targets: seq<Cell>, m: nat): Result<seq<int>> {
    if m == 0 then Ok([])
    else
      match CodesOf(mapping, targets, m - 1)
      case Err(e) => Err(e)
      case Ok(codes) =>
        match RowCodeOf(mapping, targets, m - 1)
        case Err(e) => Err(e)
        case Ok(c) => Ok(codes + [c])
  }

  /** What the code array of m rows holds once the loop has stopped: the
      codes of the rows before the first failing row and 0 from there on. */
  function FilledCodes(mapping: seq<Cell>, targets: seq<Cell>, m: nat): seq<int> {
    if m == 0 then []
    else
      var c := if CodesOf(mapping, targets, m - 1).Ok? && RowCodeOf(mapping, targets, m - 1).Ok?
               then RowCodeOf(mapping, targets, m - 1).value else 0;
      FilledCodes(mapping, targets, m - 1) + [c]
  }

  // ---------------------------------------------------------------------
  // Prediction: votes among the nearest rows

  /** The number of votes each label gets. */
  function Votes(labels: seq<int>): map<int, int> {
    map c | c in labels :: Count(labels, c)
  }

  /** w has the most votes, and among the labels with that many it is the
      smallest. */
  predicate IsBest(votes: map<int, int>, w: int) {
    w in votes && forall c :: c in votes ==> votes[c] < votes[w] || (votes[c] == votes[w] && w <= c)
  }

  /** A reference for the winner that walks the labels in list order
      rather than the vote map in hash order: the best (label, votes) pair
      so far, starting from (-1, -1). */
  function BestOf(labels: seq<int>, votes: map<int, int>): (int, int)
    requires forall i :: 0 <= i < |labels| ==> labels[i] in votes
  {
    if labels == [] then (-1, -1)
    else
      var best := BestOf(labels[..|labels| - 1], votes);
      var l := labels[|labels| - 1];
      if votes[l] > best.1 || (votes[l] == best.1 && l < best.0) then (l, votes[l]) else best
  }

  /** The label code a prediction picks; -1 when there are no neighbours. */
  function Winner(labels: seq<int>): int {
    BestOf(labels, Votes(labels)).0
  }

  /** The codes of the nearest rows. Reading the code array throws when
      there is none (training never reached it) or an index lies past its
      end (it was left by an earlier training on fewer rows); with no
      neighbour nothing is read. */
  function LabelsAt(codes: Option<seq<int>>, near: seq<int>): Result<seq<int>> {
    if near == [] then Ok([])
    else
      match codes
      case None => Err(NullPointer)
      case Some(cs) => if IndicesIn(near, |cs|) then Ok(Gather(cs, near)) else Err(OutOfRange)
  }

  /** The value a code stands for; a code without an entry gives null. */
  function Lookup(mapping: seq<Cell>, w: int): Cell {
    if 0 <= w < |mapping| then mapping[w] else Null
  }

  /** The prediction for one query row from the trained state. */
  function PredictRowOf(query: seq<real>, rows: Option<seq<seq<real>>>, codes: Option<seq<int>>,
                        mapping: Option<seq<Cell>>, k: int): Result<Cell>
  {
    match rows
    case None => Err(NullPointer)
    case Some(rs) =>
      match DistancesOf(query, rs)
      case Err(e) => Err(e)
      case Ok(ds) =>
        match KNearestOf(ds, k)
        case Err(e) => Err(e)
        case Ok(near) =>
          match LabelsAt(codes, near)
          case Err(e) => Err(e)
          case Ok(labels) =>
            match mapping
            case None => Err(NullPointer)
            case Some(m) => Ok(Lookup(m, Winner(labels)))
  }

  /** The prediction for a query row as a function of the row. */
  function Predictor(rows: Option<seq<seq<real>>>, codes: Option<seq<int>>,
                     mapping: Option<seq<Cell>>, k: int): seq<real> -> Result<Cell> {
    query => PredictRowOf(query, rows, codes, mapping, k)
  }

  /** The predictions for the query rows, or the error of the first row
      that fails. */
  function PredictionsOf(queries: seq<seq<real>>, rows: Option<seq<seq<real>>>, codes: Option<seq<int>>,
                         mapping: Option<seq<Cell>>, k: int): Result<seq<Cell>> {
    EachRow(queries, Predictor(rows, codes, mapping, k))
  }

  /** predict's result: a one-column table named "Predictions". */
  function PredictFrameOf(queries: seq<seq<real>>, rows: Option<seq<seq<real>>>, codes: Option<seq<int>>,
                          mapping: Option<seq<Cell>>, k: int): Result<Table>
  {
    match PredictionsOf(queries, rows, codes, mapping, k)
    case Err(e) => Err(e)
    case Ok(ps) => Ok(map["Predictions" := ps])
  }

  // ---------------------------------------------------------------------
  // The classifier

  class KNeighbours {
    var k: int
    var trainFeatures: array2?<real>
    var trainLabels: array?<int>
    var labelMapping: Option<seq<Cell>>

    constructor(k: int)
      ensures this.k == k && trainFeatures == null && trainLabels == null && labelMapping == None
    {
      this.k := k;
      trainFeatures := null;
      trainLabels := null;
      labelMapping := None;
    }

    /** The training rows, when there are any. */
    ghost function TrainedRows(): Option<seq<seq<real>>>
      reads this, trainFeatures
    {
      if trainFeatures == null then None else Some(RowsOf(trainFeatures))
    }

    /** The training codes, when there are any. */
    ghost function TrainedCodes(): Option<seq<int>>
      reads this, trainLabels
    {
      if trainLabels == null then None else Some(trainLabels[..])
    }

    /** Trains on the feature table x and the first column of y. The
        features are stored before the classes are counted, so a target
        with fewer than two distinct values leaves the new features beside
        the old codes. A failing row stops the encoding loop and leaves
        the codes array as far as it was filled. */
    method Train(x: DataFrame, y: DataFrame) returns (o: Outcome, ghost headers: seq<string>, ghost targetColumn: string)
      modifies this
      ensures k == old(k) && KeyOrder(headers, x.data)
      ensures !MatrixDefined(x.data, headers, x.nRows, x.nCols) ==>
                o.Fail? && trainFeatures == old(trainFeatures) && trainLabels == old(trainLabels) && labelMapping == old(labelMapping)
      ensures MatrixDefined(x.data, headers, x.nRows, x.nCols) ==>
                trainFeatures != null && fresh(trainFeatures) && RowsOf(trainFeatures) == MatrixOf(x.data, headers, x.nRows, x.nCols)
      ensures MatrixDefined(x.data, headers, x.nRows, x.nCols) && y.data == map[] ==>
                o == Fail(NoColumns) && trainLabels == old(trainLabels) && labelMapping == old(labelMapping)
      ensures MatrixDefined(x.data, headers, x.nRows, x.nCols) && y.data != map[] ==>
                targetColumn in y.data
      ensures MatrixDefined(x.data, headers, x.nRows, x.nCols) && y.data != map[] && |Distinct(y.data[targetColumn])| < 2 ==>
                o == Fail(TooFewClasses) && trainLabels == old(trainLabels) && labelMapping == old(labelMapping)
      ensures MatrixDefined(x.data, headers, x.nRows, x.nCols) && y.data != map[] && |Distinct(y.data[targetColumn])| >= 2 ==>
                var targets := y.data[targetColumn];
                var mapping := Distinct(targets);
                && labelMapping == Some(mapping)
                && trainLabels != null && fresh(trainLabels)
                && trainLabels[..] == FilledCodes(mapping, targets, x.nRows)
                && o == (match CodesOf(mapping, targets, x.nRows) case Ok(_) => Pass case Err(e) => Fail(e))
    {
      targetColumn := "";
      var n := x.nRows;
      var features;
      features, headers := x.To2DArray();
      if features.Err? {
        return Fail(features.error), headers, targetColumn;
      }
      ArrayHoldsMatrix(features.value, x.data, headers, x.nRows, x.nCols);
      trainFeatures := features.value;
      if y.data == map[] {
        return Fail(NoColumns), headers, targetColumn;
      }
      var col :| col in y.data;
      targetColumn := col;
      var originalTargets := y.data[col];
      var uniqueValues := Distinct(originalTargets);
      if |uniqueValues| < 2 {
        return Fail(TooFewClasses), headers, targetColumn;
      }
      labelMapping := Some(uniqueValues);
      var labels;
      labels, o := EncodeTargets(uniqueValues, originalTargets, n);
      trainLabels := labels;
      return o, headers, targetColumn;
    }

    /** Predicts a label for every row of x, in row order. */
    method Predict(x: DataFrame) returns (r: Result<DataFrame>, ghost headers: seq<string>)
      ensures KeyOrder(headers, x.data)
      ensures !MatrixDefined(x.data, headers, x.nRows, x.nCols) ==> r.Err?
      ensures MatrixDefined(x.data, headers, x.nRows, x.nCols) ==>
                Yields(r, PredictFrameOf(MatrixOf(x.data, headers, x.nRows, x.nCols), TrainedRows(), TrainedCodes(), labelMapping, k))
      ensures r.Ok? ==> fresh(r.value)
    {
      var features;
      features, headers := x.To2DArray();
      if features.Err? {
        return Err(features.error), headers;
      }
      var matrix := features.value;
      ArrayHoldsMatrix(matrix, x.data, headers, x.nRows, x.nCols);
      var predictions := PredictRows(matrix);
      if predictions.Err? {
        return Err(predictions.error), headers;
      }
      var result := new DataFrame(map["Predictions" := predictions.value]);
      return Ok(result), headers;
    }

    /** The loop over the query rows. */
    method PredictRows(matrix: array2<real>) returns (r: Result<seq<Cell>>)
      ensures r == PredictionsOf(RowsOf(matrix), TrainedRows(), TrainedCodes(), labelMapping, k)
    {
      ghost var queries := RowsOf(matrix);
      var n := matrix.Length0;
      var predictions: seq<Cell> := [];
      var i := 0;
      while i < n
        invariant 0 <= i <= n
        invariant queries == RowsOf(matrix)
        invariant EachRow(queries[..i], Predictor(TrainedRows(), TrainedCodes(), labelMapping, k)) == Ok(predictions)
      {
        var p := PredictRow(matrix, i);
        assert queries[i] == RowOf(matrix, i);
        EachRowStep(queries, Predictor(TrainedRows(), TrainedCodes(), labelMapping, k), i, predictions);
        if p.Err? {
          EachRowErrPersists(queries, Predictor(TrainedRows(), TrainedCodes(), labelMapping, k), i + 1, n);
          assert queries[..n] == queries;
          return Err(p.error);
        }
        predictions := predictions + [p.value];
        i := i + 1;
      }
      assert queries[..n] == queries;
      return Ok(predictions);
    }

    /** The prediction for row i of the query matrix. */
    method PredictRow(features: array2<real>, i: int) returns (r: Result<Cell>)
      requires 0 <= i < features.Length0
      ensures r == PredictRowOf(RowOf(features, i), TrainedRows(), TrainedCodes(), labelMapping, k)
    {
      if trainFeatures == null {
        return Err(NullPointer);
      }
      var distances := Distances(features, i, trainFeatures);
      if distances.Err? {
        return Err(distances.error);
      }
      var nearest := KNearestIndices(distances.value, k);
      if nearest.Err? {
        return Err(nearest.error);
      }
      var voteCount := CountVotes(nearest.value);
      if voteCount.Err? {
        return Err(voteCount.error);
      }
      var maxVoteLabel := MaxVote(voteCount.value);
      ghost var labels := LabelsAt(TrainedCodes(), nearest.value[..]).value;
      if labels == [] {
        assert Winner(labels) == -1;
      } else {
        WinnerIsBest(labels);
        BestIsUnique(Votes(labels), maxVoteLabel, Winner(labels));
      }
      if labelMapping.None? {
        return Err(NullPointer);
      }
      return Ok(Lookup(labelMapping.value, maxVoteLabel));
    }

    /** The vote count of the nearest rows' codes. */
    method CountVotes(nearest: array<int>) returns (r: Result<map<int, int>>)
      ensures LabelsAt(TrainedCodes(), nearest[..]).Err? ==> r == Err(LabelsAt(TrainedCodes(), nearest[..]).error)
      ensures LabelsAt(TrainedCodes(), nearest[..]).Ok? ==> r == Ok(Votes(LabelsAt(TrainedCodes(), nearest[..]).value))
    {
      if nearest.Length == 0 {
        return Ok(map[]);
      }
      if trainLabels == null {
        return Err(NullPointer);
      }
      r := Tally(trainLabels, nearest);
    }
  }

  /** The vote count loop once the code array is known to exist. */
  method Tally(codes: array<int>, nearest: array<int>) returns (r: Result<map<int, int>>)
    ensures IndicesIn(nearest[..], codes.Length) ==> r == Ok(Votes(Gather(codes[..], nearest[..])))
    ensures !IndicesIn(nearest[..], codes.Length) ==> r == Err(OutOfRange)
  {
    ghost var cs := codes[..];
    ghost var near := nearest[..];
    var voteCount: map<int, int> := map[];
    var j := 0;
    while j < nearest.Length
      invariant 0 <= j <= nearest.Length
      invariant IndicesIn(near[..j], |cs|) && voteCount == Votes(Gather(cs, near[..j]))
    {
      var idx := nearest[j];
      if !(0 <= idx < codes.Length) {
        assert near[j] == idx;
        return Err(OutOfRange);
      }
      var code := codes[idx];
      TallyStep(cs, near, j);
      voteCount := voteCount[code := (if code in voteCount then voteCount[code] else 0) + 1];
      j := j + 1;
    }
    assert near[..j] == near;
    return Ok(voteCount);
  }

  /** One more neighbour adds one vote for its code. */
  lemma TallyStep(cs: seq<int>, near: seq<int>, j: nat)
    requires j < |near| && IndicesIn(near[..j], |cs|) && 0 <= near[j] < |cs|
    ensures IndicesIn(near[..j + 1], |cs|)
    ensures var votes := Votes(Gather(cs, near[..j]));
            var code := cs[near[j]];
            Votes(Gather(cs, near[..j + 1])) == votes[code := (if code in votes then votes[code] else 0) + 1]
  {
    assert near[..j + 1] == near[..j] + [near[j]];
    GatherSnoc(cs, near[..j], near[j]);
    VotesSnoc(Gather(cs, near[..j]), cs[near[j]]);
  }

  /** The encoding loop: a new array of n codes, filled row by row until
      a row fails. */
  method EncodeTargets(mapping: seq<Cell>, targets: seq<Cell>, n: nat) returns (labels: array<int>, o: Outcome)
    ensures fresh(labels)
    ensures labels[..] == FilledCodes(mapping, targets, n)
    ensures o == (match CodesOf(mapping, targets, n) case Ok(_) => Pass case Err(e) => Fail(e))
  {
    labels := new int[n](_ => 0);
    var i := 0;
    while i < n
      invariant 0 <= i <= n
      invariant CodesOf(mapping, targets, i).Ok?
      invariant labels[..i] == CodesOf(mapping, targets, i).value
      invariant forall j :: i <= j < n ==> labels[j] == 0
    {
      var code := RowCode(mapping, targets, i);
      if code.Err? {
        FilledAfterFailure(mapping, targets, i, n);
        assert labels[..] == labels[..i] + labels[i..];
        CodesErrPersists(mapping, targets, i + 1, n);
        return labels, Fail(code.error);
      }
      labels[i] := code.value;
      i := i + 1;
    }
    FilledWhenOk(mapping, targets, n);
    assert labels[..] == labels[..n];
    return labels, Pass;
  }

  /** The inner scan over the label mapping for row i. */
  method RowCode(mapping: seq<Cell>, targets: seq<Cell>, i: nat) returns (r: Result<int>)
    ensures r == RowCodeOf(mapping, targets, i)
  {
    var e := 0;
    while e < |mapping|
      invariant 0 <= e <= |mapping|
      invariant e > 0 ==> i < |targets| && RowCodeOf(mapping, targets, i) == CodeFrom(mapping, targets[i], e)
    {
      if i >= |targets| {
        return Err(OutOfRange);
      }
      if mapping[e].Null? {
        return Err(NullPointer);
      }
      if mapping[e] == targets[i] {
        return Ok(e);
      }
      e := e + 1;
    }
    return Ok(0);
  }

  /** The label with the most votes, the smaller label winning a tie,
      whatever order the map's entries are visited in; -1 when nobody
      voted. */
  method MaxVote(votes: map<int, int>) returns (maxVoteLabel: int)
    requires forall c :: c in votes ==> votes[c] >= 0
    ensures votes == map[] ==> maxVoteLabel == -1
    ensures votes != map[] ==> IsBest(votes, maxVoteLabel)
  {
    maxVoteLabel := -1;
    var maxVoteCount := -1;
    var rest := votes.Keys;
    while rest != {}
      invariant rest <= votes.Keys
      invariant rest == votes.Keys ==> maxVoteLabel == -1 && maxVoteCount == -1
      invariant rest != votes.Keys ==> maxVoteLabel in votes && maxVoteCount == votes[maxVoteLabel]
      invariant forall c :: c in votes && c !in rest ==>
                  votes[c] < maxVoteCount || (votes[c] == maxVoteCount && maxVoteLabel <= c)
      decreases rest
    {
      var key := Pick(rest);
      var count := votes[key];
      if count > maxVoteCount || (count == maxVoteCount && key < maxVoteLabel) {
        maxVoteCount := count;
        maxVoteLabel := key;
      }
      rest := rest - {key};
    }
  }

  // ---------------------------------------------------------------------
  // Properties of training

  lemma {:induction false} CodesErrPersists(mapping: seq<Cell>, targets: seq<Cell>, j: nat, m: nat)
    requires j <= m && CodesOf(mapping, targets, j).Err?
    ensures CodesOf(mapping, targets, m) == CodesOf(mapping, targets, j)
    decreases m - j
  {
    if j < m {
      CodesErrPersists(mapping, targets, j + 1, m);
    }
  }

  /** Successful codes come one per row. */
  lemma {:induction false} CodesLength(mapping: seq<Cell>, targets: seq<Cell>, m: nat)
    requires CodesOf(mapping, targets, m).Ok?
    ensures |CodesOf(mapping, targets, m).value| == m
  {
    if m > 0 {
      CodesLength(mapping, targets, m - 1);
    }
  }

  /** When every row gets a code, the array holds exactly those codes. */
  lemma {:induction false} FilledWhenOk(mapping: seq<Cell>, targets: seq<Cell>, m: nat)
    requires CodesOf(mapping, targets, m).Ok?
    ensures FilledCodes(mapping, targets, m) == CodesOf(mapping, targets, m).value
  {
    if m > 0 {
      FilledWhenOk(mapping, targets, m - 1);
    }
  }

  /** When row i is the first to fail, the array holds the codes before it
      and zeros from it on. */
  lemma {:induction false} FilledAfterFailure(mapping: seq<Cell>, targets: seq<Cell>, i: nat, m: nat)
    requires i < m && CodesOf(mapping, targets, i).Ok? && RowCodeOf(mapping, targets, i).Err?
    ensures FilledCodes(mapping, targets, m) == CodesOf(mapping, targets, i).value + seq(m - i, _ => 0)
    decreases m
  {
    if m == i + 1 {
      FilledWhenOk(mapping, targets, i);
    } else {
      FilledAfterFailure(mapping, targets, i, m - 1);
      CodesErrPersists(mapping, targets, i + 1, m - 1);
    }
  }

  /** A value that occurs in the mapping from entry e on, with no null
      entry before it, gets the code of its first occurrence. */
  lemma {:induction false} CodeFromFinds(mapping: seq<Cell>, v: Cell, e: nat)
    requires e <= |mapping| && v in mapping[e..] && CodeFrom(mapping, v, e).Ok?
    ensures e <= CodeFrom(mapping, v, e).value < |mapping|
    ensures mapping[CodeFrom(mapping, v, e).value] == v
    decreases |mapping| - e
  {
    if mapping[e] != v {
      assert mapping[e..] == [mapping[e]] + mapping[e + 1..];
      CodeFromFinds(mapping, v, e + 1);
    }
  }

  /** With no null entry every scan succeeds. */
  lemma {:induction false} CodeFromNoNull(mapping: seq<Cell>, v: Cell, e: nat)
    requires e <= |mapping| && Null !in mapping
    ensures CodeFrom(mapping, v, e).Ok?
    decreases |mapping| - e
  {
    if e < |mapping| {
      CodeFromNoNull(mapping, v, e + 1);
    }
  }

  /** The only error a scan can end in is the null entry's. */
  lemma {:induction false} CodeFromErrIsNull(mapping: seq<Cell>, v: Cell, e: nat)
    requires e <= |mapping|
    ensures CodeFrom(mapping, v, e).Err? ==> CodeFrom(mapping, v, e) == Err(NullPointer)
    decreases |mapping| - e
  {
    if e < |mapping| {
      CodeFromErrIsNull(mapping, v, e + 1);
    }
  }

  /** Looking up a null target throws once the scan meets the null entry. */
  lemma {:induction false} CodeFromNullTarget(mapping: seq<Cell>, e: nat)
    requires e <= |mapping| && Null in mapping[e..]
    ensures CodeFrom(mapping, Null, e) == Err(NullPointer)
    decreases |mapping| - e
  {
    if !mapping[e].Null? {
      assert mapping[e..] == [mapping[e]] + mapping[e + 1..];
      CodeFromNullTarget(mapping, e + 1);
    }
  }

  /** Training on targets without nulls, with at least as many targets as
      feature rows, encodes every row, and decoding a row's code gives back
      its target value. */
  lemma {:induction false} EncodingDecodes(targets: seq<Cell>, m: nat)
    requires m <= |targets| && Null !in targets
    ensures CodesOf(Distinct(targets), targets, m).Ok?
    ensures var codes := CodesOf(Distinct(targets), targets, m).value;
            |codes| == m &&
            forall i :: 0 <= i < m ==> 0 <= codes[i] < |Distinct(targets)| && Distinct(targets)[codes[i]] == targets[i]
  {
    var mapping := Distinct(targets);
    DistinctProperties(targets);
    if m > 0 {
      EncodingDecodes(targets, m - 1);
      var v := targets[m - 1];
      assert v in mapping && mapping[0..] == mapping;
      CodeFromNoNull(mapping, v, 0);
      CodeFromFinds(mapping, v, 0);
    }
  }

  /** A null among the first m targets makes training throw a
      NullPointerException, since the null value is in the mapping. */
  lemma NullTargetThrows(targets: seq<Cell>, m: nat, r: nat)
    requires r < m <= |targets| && targets[r].Null?
    ensures CodesOf(Distinct(targets), targets, m) == Err(NullPointer)
  {
    var mapping := Distinct(targets);
    DistinctProperties(targets);
    assert mapping[0..] == mapping;
    OnlyNullErrors(targets, r);
    if CodesOf(mapping, targets, r).Err? {
      CodesErrPersists(mapping, targets, r, m);
    } else {
      assert Null in mapping;
      CodeFromNullTarget(mapping, 0);
      CodesErrPersists(mapping, targets, r + 1, m);
    }
  }

  /** Within the target list, encoding can only fail on a null. */
  lemma {:induction false} OnlyNullErrors(targets: seq<Cell>, m: nat)
    requires m <= |targets|
    ensures CodesOf(Distinct(targets), targets, m).Err? ==> CodesOf(Distinct(targets), targets, m) == Err(NullPointer)
  {
    if m > 0 {
      OnlyNullErrors(targets, m - 1);
      CodeFromErrIsNull(Distinct(targets), targets[m - 1], 0);
    }
  }

  // ---------------------------------------------------------------------
  // Properties of voting

  /** Appending a label adds one vote for it. */
  lemma VotesSnoc(labels: seq<int>, l: int)
    ensures Votes(labels + [l]) == Votes(labels)[l := (if l in Votes(labels) then Votes(labels)[l] else 0) + 1]
  {
    var s := labels + [l];
    assert s[..|s| - 1] == labels;
    forall c | c in labels ensures Count(s, c) == Count(labels, c) + (if c == l then 1 else 0) {
    }
    if l !in labels {
      CountPositive(labels, l);
    }
  }

  /** Votes count at least one for every label that got any. */
  lemma VotesPositive(labels: seq<int>)
    ensures forall c :: c in Votes(labels) ==> Votes(labels)[c] >= 1
  {
    forall c | c in labels ensures Count(labels, c) >= 1 {
      CountPositive(labels, c);
    }
  }

  /** The reference pair is a label of the list with its vote count, and
      beats or ties every label of the list. */
  lemma {:induction false} BestOfIsBest(labels: seq<int>, votes: map<int, int>)
    requires forall i :: 0 <= i < |labels| ==> labels[i] in votes && votes[labels[i]] >= 0
    ensures labels == [] ==> BestOf(labels, votes) == (-1, -1)
    ensures labels != [] ==>
              var best := BestOf(labels, votes);
              best.0 in labels && best.1 == votes[best.0] &&
              forall i :: 0 <= i < |labels| ==>
                votes[labels[i]] < best.1 || (votes[labels[i]] == best.1 && best.0 <= labels[i])
  {
    if labels != [] {
      BestOfIsBest(labels[..|labels| - 1], votes);
    }
  }

  /** The reference winner has the most votes and is the smallest such
      label. */
  lemma WinnerIsBest(labels: seq<int>)
    requires labels != []
    ensures IsBest(Votes(labels), Winner(labels))
  {
    var votes := Votes(labels);
    forall i | 0 <= i < |labels| ensures labels[i] in votes && votes[labels[i]] >= 0 {
      assert labels[i] in labels;
      assert votes[labels[i]] == Count(labels, labels[i]);
    }
    BestOfIsBest(labels, votes);
    var w := Winner(labels);
    forall c | c in votes ensures votes[c] < votes[w] || (votes[c] == votes[w] && w <= c) {
      var i :| 0 <= i < |labels| && labels[i] == c;
    }
  }

  /** At most one label is best, so the result does not depend on the
      order in which the vote map is visited. */
  lemma BestIsUnique(votes: map<int, int>, a: int, b: int)
    requires IsBest(votes, a) && IsBest(votes, b)
    ensures a == b
  {
  }

  // ---------------------------------------------------------------------
  // Properties of prediction

  /** A successful predict returns one column, "Predictions", with one
      entry per query row, that row's prediction; it succeeds when every
      row has a prediction. */
  lemma PredictFrameSpec(queries: seq<seq<real>>, rows: Option<seq<seq<real>>>, codes: Option<seq<int>>,
                          mapping: Option<seq<Cell>>, k: int)
    ensures (forall i :: 0 <= i < |queries| ==> PredictRowOf(queries[i], rows, codes, mapping, k).Ok?) ==> PredictFrameOf(queries, rows, codes, mapping, k).Ok?
    ensures PredictFrameOf(queries, rows, codes, mapping, k).Ok? ==>
              var t := PredictFrameOf(queries, rows, codes, mapping, k).value;
              t.Keys == {"Predictions"} && |t["Predictions"]| == |queries| &&
              forall i :: 0 <= i < |queries| ==> PredictRowOf(queries[i], rows, codes, mapping, k) == Ok(t["Predictions"][i])
  {
    if forall i :: 0 <= i < |queries| ==> Predictor(rows, codes, mapping, k)(queries[i]).Ok? {
      EachRowSucceeds(queries, Predictor(rows, codes, mapping, k));
    }
    if PredictFrameOf(queries, rows, codes, mapping, k).Ok? {
      EachRowSpec(queries, Predictor(rows, codes, mapping, k));
    }
  }

  /** Once trained on targets without nulls, with k at least 1, every
      prediction is one of the training target values. */
  lemma PredictionIsTrainingTarget(query: seq<real>, rows: seq<seq<real>>, targets: seq<Cell>, codes: seq<int>, k: int)
    requires |rows| <= |targets| && Null !in targets && 1 <= k
    requires CodesOf(Distinct(targets), targets, |rows|) == Ok(codes)
    requires PredictRowOf(query, Some(rows), Some(codes), Some(Distinct(targets)), k).Ok?
    ensures PredictRowOf(query, Some(rows), Some(codes), Some(Distinct(targets)), k).value in targets
  {
    var mapping := Distinct(targets);
    EncodingDecodes(targets, |rows|);
    var ds := DistancesOf(query, rows).value;
    DistancesSpec(query, rows);
    var near := KNearestOf(ds, k).value;
    KNearestSpec(ds, k);
    var labels := LabelsAt(Some(codes), near).value;
    assert near[0] in near;
    WinnerIsBest(labels);
    var w := Winner(labels);
    var i :| 0 <= i < |labels| && labels[i] == w;
    assert w == codes[near[i]];
    DistinctProperties(targets);
    assert mapping[w] in mapping;
  }

  /** With k = 0 there are no neighbours and every prediction is null. */
  lemma ZeroNeighboursPredictNull(query: seq<real>, rows: seq<seq<real>>, codes: Option<seq<int>>, mapping: seq<Cell>)
    requires DistancesOf(query, rows).Ok?
    ensures PredictRowOf(query, Some(rows), codes, Some(mapping), 0) == Ok(Null)
  {
    KNearestSpec(DistancesOf(query, rows).value, 0);
  }
}
