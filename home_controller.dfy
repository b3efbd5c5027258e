/**
 The server side of a shot (Controllers/HomeController.cs): SaveAnalysis
 averages the posted frames, asks the feedback engine for tips and, for a
 signed-in user only, appends a record to the store; History lists the
 signed-in user's records, newest first.

 The database table is the field `shotAnalyses`; the signed-in user is an
 `Option<Identity>` (no identity at all is `None`); the clock reading that
 becomes `CreatedAt` and the key the database assigns are parameters.
 */
module HomeController {
  import opened Wrappers
  import opened AnalysisHelper
  import opened Models

  /** The JSON body SaveAnalysis binds; `frames` is `None` when the body has a null list. */
  datatype ShotAnalysisRequest = ShotAnalysisRequest(userName: string, frames: Option<seq<FramePose>>)

  /** `User.Identity`: whether it is authenticated and its (possibly null) name. */
  datatype Identity = Identity(isAuthenticated: bool, name: Option<string>)

  /** What SaveAnalysis answers: a 400 with a message, or the JSON object it builds. */
  datatype SaveResponse =
    | BadRequest(message: string)
    | Json(averageElbowAngle: real, averageFeetDistance: real, tips: seq<string>,
           savedToHistory: bool, userName: Option<string>)

  const NoFrameData := "No frame data received."
  const Anonymous := "Anonymous"
  const Guest := "Guest"
  /** The separator the stored `Tips` text puts between tips. */
  const TipSeparator := '\n'

  /** `User.Identity?.IsAuthenticated ?? false` */
  predicate IsAuthenticated(user: Option<Identity>) {
    user.Some? && user.value.isAuthenticated
  }

  /** `User.Identity?.Name` */
  function IdentityName(user: Option<Identity>): Option<string> {
    if user.Some? then user.value.name else None
  }

  /** `name ?? fallback` */
  function NameOr(name: Option<string>, fallback: string): string {
    if name.Some? then name.value else fallback
  }

  // ---------------------------------------------------------------------------
  // Request check
  // ---------------------------------------------------------------------------

  /** The frames SaveAnalysis goes on with: none for a null request, a null list or an empty list. */
  function RequestFrames(request: Option<ShotAnalysisRequest>): (frames: Option<seq<FramePose>>)
    ensures frames.None? <==>
      request.None? || request.value.frames.None? || |request.value.frames.value| == 0
    ensures frames.Some? ==> frames.value == request.value.frames.value && |frames.value| > 0
  {
    if request.None? || request.value.frames.None? || |request.value.frames.value| == 0 then None
    else request.value.frames
  }

  // ---------------------------------------------------------------------------
  // Averages (`Frames.Average`)
  // ---------------------------------------------------------------------------

  function Sum(xs: seq<real>): real {
    if xs == [] then 0.0 else xs[0] + Sum(xs[1..])
  }

  /** The arithmetic mean, as `Enumerable.Average` computes it on a non-empty list. */
  function Mean(xs: seq<real>): real
    requires |xs| > 0
  {
    Sum(xs) / (|xs| as real)
  }

  function ElbowAngles(frames: seq<FramePose>): (xs: seq<real>)
    ensures |xs| == |frames|
    ensures forall i :: 0 <= i < |frames| ==> xs[i] == frames[i].elbowAngle
  {
    seq(|frames|, i requires 0 <= i < |frames| => frames[i].elbowAngle)
  }

  function FeetDistances(frames: seq<FramePose>): (xs: seq<real>)
    ensures |xs| == |frames|
    ensures forall i :: 0 <= i < |frames| ==> xs[i] == frames[i].feetDistance
  {
    seq(|frames|, i requires 0 <= i < |frames| => frames[i].feetDistance)
  }

  /** The smallest element: one of the elements, and no larger than any of them. */
  function Min(xs: seq<real>): (m: real)
    requires |xs| > 0
    ensures m in xs
    ensures forall i :: 0 <= i < |xs| ==> m <= xs[i]
  {
    if |xs| == 1 then xs[0]
    else
      var rest := Min(xs[1..]);
      if xs[0] <= rest then xs[0] else rest
  }

  /** The largest element: one of the elements, and no smaller than any of them. */
  function Max(xs: seq<real>): (m: real)
    requires |xs| > 0
    ensures m in xs
    ensures forall i :: 0 <= i < |xs| ==> xs[i] <= m
  {
    if |xs| == 1 then xs[0]
    else
      var rest := Max(xs[1..]);
      if xs[0] >= rest then xs[0] else rest
  }

  /** A sum of values within [lo, hi] lies within [n lo, n hi]. */
  lemma {:induction false} SumBounds(xs: seq<real>, lo: real, hi: real)
    requires forall i :: 0 <= i < |xs| ==> lo <= xs[i] <= hi
    ensures (|xs| as real) * lo <= Sum(xs) <= (|xs| as real) * hi
  {
    if xs != [] {
      SumBounds(xs[1..], lo, hi);
    }
  }

  /** A mean of values within [lo, hi] lies within [lo, hi]. */
  lemma MeanBetween(xs: seq<real>, lo: real, hi: real)
    requires |xs| > 0
    requires forall i :: 0 <= i < |xs| ==> lo <= xs[i] <= hi
    ensures lo <= Mean(xs) <= hi
  {
    SumBounds(xs, lo, hi);
    QuotientBounds(Sum(xs), |xs| as real, lo, hi);
  }

  /** The mean lies between the smallest and the largest value. */
  lemma MeanWithinBounds(xs: seq<real>)
    requires |xs| > 0
    ensures Min(xs) <= Mean(xs) <= Max(xs)
  {
    MeanBetween(xs, Min(xs), Max(xs));
  }

  lemma QuotientBounds(s: real, n: real, lo: real, hi: real)
    requires n > 0.0 && n * lo <= s <= n * hi
    ensures lo <= s / n <= hi
  {
  }

  /** A constant sequence averages to that constant. */
  lemma MeanOfConstant(xs: seq<real>, c: real)
    requires |xs| > 0
    requires forall i :: 0 <= i < |xs| ==> xs[i] == c
    ensures Mean(xs) == c
  {
    MeanBetween(xs, c, c);
  }

  // ---------------------------------------------------------------------------
  // The stored tips text (`string.Join("\n", tips)`) and its inverse
  // ---------------------------------------------------------------------------

  /** `string.Join(sep, parts)` */
  function Join(sep: string, parts: seq<string>): string {
    if parts == [] then ""
    else if |parts| == 1 then parts[0]
    else parts[0] + sep + Join(sep, parts[1..])
  }

  /** Cuts a text at every `sep`; always at least one piece. */
  function Split(s: string, sep: char): (parts: seq<string>)
    ensures |parts| > 0
  {
    if s == [] then [""]
    else
      var rest := Split(s[1..], sep);
      if s[0] == sep then [""] + rest else [[s[0]] + rest[0]] + rest[1..]
  }

  lemma {:induction false} SplitPrefix(p: string, rest: string, sep: char)
    requires sep !in p
    ensures Split(p + rest, sep) == [p + Split(rest, sep)[0]] + Split(rest, sep)[1..]
  {
    if p != [] {
      assert (p + rest)[1..] == p[1..] + rest;
      SplitPrefix(p[1..], rest, sep);
      assert [p[0]] + (p[1..] + Split(rest, sep)[0]) == p + Split(rest, sep)[0];
    } else {
      assert p + rest == rest;
      assert p + Split(rest, sep)[0] == Split(rest, sep)[0];
      assert Split(rest, sep) == [Split(rest, sep)[0]] + Split(rest, sep)[1..];
    }
  }

  /** Joining pieces free of the separator and splitting the text again gives the pieces back. */
  lemma {:induction false} SplitJoin(parts: seq<string>, sep: char)
    requires |parts| > 0
    requires forall i :: 0 <= i < |parts| ==> sep !in parts[i]
    ensures Split(Join([sep], parts), sep) == parts
  {
    if |parts| == 1 {
      SplitPrefix(parts[0], "", sep);
      assert parts[0] + "" == parts[0];
    } else {
      var tail := Join([sep], parts[1..]);
      SplitJoin(parts[1..], sep);
      assert Join([sep], parts) == parts[0] + ([sep] + tail);
      SplitPrefix(parts[0], [sep] + tail, sep);
      assert ([sep] + tail)[1..] == tail;
      assert Split([sep] + tail, sep) == [""] + parts[1..];
      assert parts[0] + "" == parts[0];
      assert parts == [parts[0]] + parts[1..];
    }
  }

  // ---------------------------------------------------------------------------
  // History query: filter by user, newest first
  // ---------------------------------------------------------------------------

  /** `Where(a => a.UserName == userName)`; a null name matches no row. */
  function ByUser(rows: seq<ShotAnalysis>, userName: Option<string>): (r: seq<ShotAnalysis>)
    ensures forall a :: a in r ==> Some(a.userName) == userName
    ensures forall a :: multiset(r)[a] == (if Some(a.userName) == userName then multiset(rows)[a] else 0)
  {
    if rows == [] then []
    else
      assert rows == [rows[0]] + rows[1..];
      var rest := ByUser(rows[1..], userName);
      if Some(rows[0].userName) == userName then [rows[0]] + rest else rest
  }

  ghost predicate NewestFirst(rows: seq<ShotAnalysis>) {
    forall i, j :: 0 <= i < j < |rows| ==> rows[i].createdAt >= rows[j].createdAt
  }

  function InsertNewestFirst(a: ShotAnalysis, rows: seq<ShotAnalysis>): (r: seq<ShotAnalysis>)
    requires NewestFirst(rows)
    ensures NewestFirst(r)
    ensures multiset(r) == multiset(rows) + multiset{a}
    ensures r[0] == a || (rows != [] && r[0] == rows[0])
  {
    if rows == [] || a.createdAt >= rows[0].createdAt then [a] + rows
    else
      var rest := InsertNewestFirst(a, rows[1..]);
      assert rows == [rows[0]] + rows[1..];
      assert rows[0].createdAt >= rest[0].createdAt;
      [rows[0]] + rest
  }

  /** `OrderByDescending(a => a.CreatedAt)`: the same rows, newest first (ties keep their order). */
  function OrderByCreatedAtDescending(rows: seq<ShotAnalysis>): (r: seq<ShotAnalysis>)
    ensures NewestFirst(r)
    ensures multiset(r) == multiset(rows)
  {
    if rows == [] then []
    else
      assert rows == [rows[0]] + rows[1..];
      InsertNewestFirst(rows[0], OrderByCreatedAtDescending(rows[1..]))
  }

  // ---------------------------------------------------------------------------
  // The controller
  // ---------------------------------------------------------------------------

  class HomeController {
    /** `_context.ShotAnalyses` */
    var shotAnalyses: seq<ShotAnalysis>

    constructor (stored: seq<ShotAnalysis>)
      ensures shotAnalyses == stored
    {
      shotAnalyses := stored;
    }

    /** Exactly the stored analyses of the current user, newest first. */
    function History(user: Option<Identity>): (analyses: seq<ShotAnalysis>)
      reads this
      ensures forall a :: a in analyses ==> Some(a.userName) == IdentityName(user)
      ensures forall a ::
        multiset(analyses)[a] == (if Some(a.userName) == IdentityName(user) then multiset(shotAnalyses)[a] else 0)
      ensures NewestFirst(analyses)
    {
      var mine := ByUser(shotAnalyses, IdentityName(user));
      var sorted := OrderByCreatedAtDescending(mine);
      assert forall a :: a in sorted ==> a in mine by {
        forall a | a in sorted ensures a in mine {
          assert a in multiset(sorted);
        }
      }
      sorted
    }

    /**
     Rejects a request without frames and leaves the store alone; otherwise
     answers with the averages and their tips, and appends one record to the
     store exactly when the user is authenticated.
     */
    method SaveAnalysis(request: Option<ShotAnalysisRequest>, user: Option<Identity>, now: int, id: int)
      returns (response: SaveResponse)
      modifies this
      ensures RequestFrames(request).None? ==>
        response == BadRequest(NoFrameData) && shotAnalyses == old(shotAnalyses)
      ensures RequestFrames(request).Some? ==>
        var frames := RequestFrames(request).value;
        var avgElbow := Mean(ElbowAngles(frames));
        var avgFeet := Mean(FeetDistances(frames));
        var tips := TipGeneration(avgElbow, avgFeet);
        && response == Json(avgElbow, avgFeet, tips, IsAuthenticated(user),
                            if IsAuthenticated(user) then IdentityName(user) else Some(Guest))
        && shotAnalyses == old(shotAnalyses) +
             if IsAuthenticated(user)
             then [ShotAnalysis(id, NameOr(IdentityName(user), Anonymous), now,
                                avgElbow, avgFeet, Join([TipSeparator], tips))]
             else []
      ensures response.Json? && response.savedToHistory <==> |shotAnalyses| == |old(shotAnalyses)| + 1
    {
      var frames := RequestFrames(request);
      if frames.None? {
        return BadRequest(NoFrameData);
      }

      var avgElbow := Mean(ElbowAngles(frames.value));
      var avgFeet := Mean(FeetDistances(frames.value));
      var tips := TipGeneration(avgElbow, avgFeet);

      var isAuthenticated := IsAuthenticated(user);
      var savedToHistory := false;

      if isAuthenticated {
        var analysis := ShotAnalysis(id, NameOr(IdentityName(user), Anonymous), now,
                                     avgElbow, avgFeet, Join([TipSeparator], tips));
        shotAnalyses := shotAnalyses + [analysis];
        savedToHistory := true;
      }

      response := Json(avgElbow, avgFeet, tips, savedToHistory,
                       if isAuthenticated then IdentityName(user) else Some(Guest));
    }
  }

  /** The saved `Tips` text splits back into exactly the two tips of the response. */
  lemma StoredTipsSplitBack(avgElbow: real, avgFeet: real)
    ensures Split(Join([TipSeparator], TipGeneration(avgElbow, avgFeet)), TipSeparator)
            == TipGeneration(avgElbow, avgFeet)
  {
    var tips := TipGeneration(avgElbow, avgFeet);
    ElbowTipIsOneLine(tips[0]);
    FeetTipIsOneLine(tips[1]);
    SplitJoin(tips, TipSeparator);
  }

  /**
   A named user finds the record SaveAnalysis stores for them in History:
   appending it adds exactly one copy of it to that user's rows.
   */
  lemma SavedRecordIsListed(rows: seq<ShotAnalysis>, record: ShotAnalysis, user: Option<Identity>)
    requires IdentityName(user).Some?
    requires record.userName == NameOr(IdentityName(user), Anonymous)
    ensures multiset(ByUser(rows + [record], IdentityName(user)))[record]
            == multiset(ByUser(rows, IdentityName(user)))[record] + 1
    ensures record in ByUser(rows + [record], IdentityName(user))
  {
    assert multiset(rows + [record]) == multiset(rows) + multiset{record};
  }

  /**
   An authenticated identity without a name saves under "Anonymous": its own
   History is always empty, and the record shows up in the History of a user
   whose name is "Anonymous".
   */
  lemma NamelessSavesGoToAnonymous(rows: seq<ShotAnalysis>, record: ShotAnalysis, user: Option<Identity>)
    requires IdentityName(user).None?
    requires record.userName == NameOr(IdentityName(user), Anonymous)
    ensures ByUser(rows + [record], IdentityName(user)) == []
    ensures record in ByUser(rows + [record], Some(Anonymous))
  {
    assert multiset(rows + [record]) == multiset(rows) + multiset{record};
  }

  /** The averages SaveAnalysis reports lie within the range of the posted values. */
  lemma AveragesWithinFrameRange(frames: seq<FramePose>)
    requires |frames| > 0
    ensures Min(ElbowAngles(frames)) <= Mean(ElbowAngles(frames)) <= Max(ElbowAngles(frames))
    ensures Min(FeetDistances(frames)) <= Mean(FeetDistances(frames)) <= Max(FeetDistances(frames))
  {
    MeanWithinBounds(ElbowAngles(frames));
    MeanWithinBounds(FeetDistances(frames));
  }

  /**
   A session of 15 frames at 100 degrees and feet distance 1.0 averages to
   exactly those values and is told that the elbow is too low and the stance
   too wide.
   */
  lemma ConstantSessionFeedback(frames: seq<FramePose>)
    requires |frames| == 15
    requires forall i :: 0 <= i < |frames| ==> frames[i].elbowAngle == 100.0 && frames[i].feetDistance == 1.0
    ensures Mean(ElbowAngles(frames)) == 100.0 && Mean(FeetDistances(frames)) == 1.0
    ensures TipGeneration(Mean(ElbowAngles(frames)), Mean(FeetDistances(frames))) == [ElbowTooLow, StanceTooWide]
  {
    MeanOfConstant(ElbowAngles(frames), 100.0);
    MeanOfConstant(FeetDistances(frames), 1.0);
  }
}
