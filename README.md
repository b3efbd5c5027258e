# Fix My Shot — a Dafny model of the shot-feedback path

Fix My Shot is a small web application for basketball shooting form. While the
camera runs for five seconds, the browser (`wwwroot/js/analyzeShot.js`) records
one frame for each detection step in which the pose detector finds a person
and all five joints it needs. A frame holds the left elbow angle and the
distance between the ankles. The frames are posted to the server. The server
(`Controllers/HomeController.cs`) averages the two metrics and turns them into
two coaching tips (`Helpers/AnalysisHelper.cs`). It stores the result only
for a signed-in user, and it lists that user's stored results newest first.

The model has one module per source file, one for the stored record, and
one that joins the client to the server:

- `AnalysisHelper` (`analysis_helper.dfy`): the `FramePose` record and
  `TipGeneration`, the threshold classifier. The elbow chain keeps the
  order the C# tests it in. `avgElbow > 90` is tested before
  `avgElbow > 160`, so the "arm is to straight and high" tip can never be
  produced. An angle above 160 degrees is told that the elbow is too low.
  The lemmas prove both facts.
- `Models` (`models.dfy`): the stored `ShotAnalysis` row.
- `HomeController` (`home_controller.dfy`): the request check, `Average`
  as the arithmetic mean, `string.Join`, and the `History` filter and sort.
  The class `HomeController` holds the table as a `seq` field.
  `SaveAnalysis` is a method that modifies that field. `History` is a
  function that reads it.
- `AnalyzeShot` (`analyze_shot.dfy`): `kp.find` by name, one detection step,
  and the class `ShotAnalyzer`. It holds the page's `frames` array as a `seq`
  field, `DetectFrame` grows it, and `StartAnalysis` clears it, runs the steps
  and builds the posted body. `Accumulate` specifies a run of steps. The
  lemmas show that frames only grow, by at most one per step, and that every
  frame's index equals its position.
- `CaptureToServer` (`capture_to_server.dfy`): a posted capture as the server binds it.
- `Wrappers` (`wrappers.dfy`): `Option`, for C# `null` and JavaScript
  `undefined`.

Inputs the code gets from its environment are parameters. These are the
identity of the signed-in user (`Option<Identity>`), the clock reading that
becomes `CreatedAt`, the key the database assigns, and the detector's output
for each step. `angleBetween` and `distance` are uninterpreted functions,
passed to `ShotAnalyzer` as constants.

The code has no smoothing, confidence gate, posture gate, shoulder
normalisation, plausibility bound or frame minimum. Feet distance is raw
pixels, the bands are 90 / 160 degrees and 0.2 / 0.7, and any number of
frames is accepted, including none (the server then rejects the request).

## Model

| member | source | states |
|---|---|---|
| `AnalysisHelper.TipGeneration` | Helpers/AnalysisHelper.cs:10-45 | Exactly two tips, an elbow tip then a feet tip. The elbow tip is "too low" iff avgElbow > 90 and "great" iff avgElbow <= 90 (90 itself is great). The "straight and high" tip never appears. The feet tip is "too close" iff avgFeet < 0.2, "too wide" iff avgFeet > 0.7, and "perfect" iff 0.2 <= avgFeet <= 0.7, both ends inclusive. So the three bands are disjoint and cover every input. |
| `AnalysisHelper.ArmTooStraightNeverProduced` | Helpers/AnalysisHelper.cs:16-23 | For no pair of inputs does the result contain the "arm is to straight and high" tip: the `> 160` branch is unreachable. |
| `AnalysisHelper.StraightArmIsToldElbowTooLow` | Helpers/AnalysisHelper.cs:16-20 | Every elbow angle above 160 gets the "elbow is too low" tip. |
| `AnalysisHelper.TipsAreIndependent` | Helpers/AnalysisHelper.cs:16-41 | The first tip depends only on avgElbow and the second only on avgFeet; equal inputs give equal tips (the function is pure). |
| `AnalysisHelper.ElbowTipIsOneLine` | Helpers/AnalysisHelper.cs:18-26 | No elbow tip contains a line break. |
| `AnalysisHelper.FeetTipIsOneLine` | Helpers/AnalysisHelper.cs:32-40 | No feet tip contains a line break. |
| `HomeController.IsAuthenticated` | Controllers/HomeController.cs:67 | `User.Identity?.IsAuthenticated ?? false`: false without an identity. `SaveAnalysis` uses it to decide the append and `savedToHistory`. |
| `HomeController.IdentityName` | Controllers/HomeController.cs:75 | `User.Identity?.Name`: null without an identity or without a name. |
| `HomeController.NameOr` | Controllers/HomeController.cs:75 | `name ?? fallback`, a plain definition. What the name a save stores means for `History` is stated by `SavedRecordIsListed` and `NamelessSavesGoToAnonymous`. |
| `HomeController.RequestFrames` | Controllers/HomeController.cs:60-61 | There are no frames to work on exactly when the request is null, its frame list is null or the list is empty; otherwise the request's own non-empty list is used. |
| `HomeController.Mean` | Controllers/HomeController.cs:63-64 | `Enumerable.Average` on a non-empty list: the sum divided by the count. Its properties are carried by `MeanBetween`, `MeanWithinBounds` and `MeanOfConstant`. |
| `HomeController.MeanBetween` | Controllers/HomeController.cs:63-64 | A mean of non-empty values that all lie in [lo, hi] lies in [lo, hi]. |
| `HomeController.MeanWithinBounds` | Controllers/HomeController.cs:63-64 | The mean lies between the smallest and the largest value. |
| `HomeController.MeanOfConstant` | Controllers/HomeController.cs:63-64 | A constant sequence averages to that constant. |
| `HomeController.AveragesWithinFrameRange` | Controllers/HomeController.cs:63-64 | Both averages SaveAnalysis computes lie between the smallest and largest value posted for that metric. |
| `HomeController.ConstantSessionFeedback` | Controllers/HomeController.cs:63-65 | Fifteen frames at 100 degrees and feet distance 1.0 average to exactly (100, 1.0) and get the tips "elbow is too low" and "stance is too wide". |
| `HomeController.Min` | Controllers/HomeController.cs:63-64 | The smallest value is one of the values and is at most each of them. |
| `HomeController.Max` | Controllers/HomeController.cs:63-64 | The largest value is one of the values and is at least each of them. |
| `HomeController.Join` | Controllers/HomeController.cs:78 | `string.Join(sep, parts)`: the parts with `sep` between neighbours. `SplitJoin` proves that `Split` undoes it. |
| `HomeController.SplitJoin` | Controllers/HomeController.cs:78 | Joining pieces that do not contain the separator, then cutting the text at the separator, gives the pieces back. |
| `HomeController.StoredTipsSplitBack` | Controllers/HomeController.cs:78 | The stored `Tips` text (the tips joined with "\n") splits back into exactly the tips of the response. |
| `HomeController.ByUser` | Controllers/HomeController.cs:39 | Only rows of that user name are kept. Every such row keeps its multiplicity, so none is lost. A null name keeps nothing. |
| `HomeController.OrderByCreatedAtDescending` | Controllers/HomeController.cs:40 | The result is a permutation of the input, ordered by CreatedAt from newest to oldest. |
| `HomeController.InsertNewestFirst` | Controllers/HomeController.cs:40 | Inserting into a newest-first list keeps it newest-first and adds exactly that row. |
| `HomeController.HomeController.History` | Controllers/HomeController.cs:35-44 | Exactly the stored analyses whose UserName equals the identity's name, each with its multiplicity in the store, newest first. |
| `HomeController.SavedRecordIsListed` | Controllers/HomeController.cs:73-81 | For an identity with a name, appending the record saved under `Name ?? "Anonymous"` adds exactly one copy of it to the rows that identity's `History` selects, so the user finds the saved shot. |
| `HomeController.NamelessSavesGoToAnonymous` | Controllers/HomeController.cs:73-81 | An authenticated identity with a null name saves under "Anonymous". Its own `History` selects nothing, and the record is selected for a user whose name is "Anonymous". |
| `HomeController.HomeController.SaveAnalysis` | Controllers/HomeController.cs:58-94 | A request without frames is answered with BadRequest("No frame data received.") and the store is unchanged. Otherwise the response carries the arithmetic means of ElbowAngle and FeetDistance and `TipGeneration` of them. If and only if the user is authenticated, exactly one record is appended and `savedToHistory` is true. The record has the identity's name or "Anonymous" (never the request's userName), the clock reading, the two means and the tips joined with "\n". The response's userName is the identity's name, or "Guest" when not authenticated. |
| `HomeController.HomeController.constructor` | Controllers/HomeController.cs:18-22 | The controller sees the store it is given. |
| `AnalyzeShot.Find` | wwwroot/js/analyzeShot.js:50-54 | `find` by name returns nothing exactly when no keypoint has that name. Otherwise it returns a keypoint with that name that is preceded by no other keypoint of that name: the first match. |
| `AnalyzeShot.DetectedFrame` | wwwroot/js/analyzeShot.js:47-64 | A step records no frame exactly when there is no pose or one of left_shoulder, left_elbow, left_wrist, left_ankle and right_ankle is missing from the first pose. A recorded frame carries the given index, the angle of (shoulder, elbow, wrist) and the distance of (left ankle, right ankle), each the first keypoint with that name. |
| `AnalyzeShot.Step` | wwwroot/js/analyzeShot.js:46-66 | The frames after one `detectFrame` pass: the old frames plus `DetectedFrame` at index `frames.length`, if there is one. `StepProperties` and `StepWithoutJointsChangesNothing` carry its properties. |
| `AnalyzeShot.Accumulate` | wwwroot/js/analyzeShot.js:46-76 | The frames after a chain of `detectFrame` passes, one `Step` per detector output, in order. `AccumulateProperties` and `NoPoseNoFrames` carry its properties. |
| `AnalyzeShot.StepProperties` | wwwroot/js/analyzeShot.js:46-66 | A step appends at most one frame and leaves the earlier frames as they were. If every index equalled its position before, it still does. |
| `AnalyzeShot.StepWithoutJointsChangesNothing` | wwwroot/js/analyzeShot.js:48-56 | A step with no pose, or with one of the five joints missing, leaves the frames unchanged. |
| `AnalyzeShot.AccumulateProperties` | wwwroot/js/analyzeShot.js:46-76 | After any run of steps the frames have grown by at most one per step. The earlier frames are untouched, and every index still equals its position. |
| `AnalyzeShot.AccumulatePrefix` | wwwroot/js/analyzeShot.js:46-76 | The run of the first n steps is the run of the first n - 1 steps followed by step n. `StartAnalysis`'s loop invariant advances with it. |
| `AnalyzeShot.NoPoseNoFrames` | wwwroot/js/analyzeShot.js:48 | If the detector never returns a pose, no frame is recorded. |
| `AnalyzeShot.ShotAnalyzer.constructor` | wwwroot/js/analyzeShot.js:7-8 | The page starts with an empty frame list. |
| `AnalyzeShot.ShotAnalyzer.DetectFrame` | wwwroot/js/analyzeShot.js:46-66 | One pass of `detectFrame` turns the frames into `Step` of the old frames. The index-equals-position invariant holds afterwards. |
| `AnalyzeShot.ShotAnalyzer.StartAnalysis` | wwwroot/js/analyzeShot.js:38-77 | The frames are cleared, then one step runs per detector output, in order, the first unconditionally. The final frames are the accumulation from the empty list and satisfy the index invariant. The posted body is `{userName: "DemoUser", frames}` with frames in accumulation order, also when there are none. |
| `CaptureToServer.AsRequest` | Controllers/HomeController.cs:58 | The `[FromBody]` binding of a posted body: its userName and its frame list, unchanged. See the `CaptureToServer.AsRequest` line under "Left out" for what this idealises. |
| `CaptureToServer.PostedCapture` | Controllers/HomeController.cs:58-63 | Assuming every recorded metric is a finite number: when the server binds a posted capture, it rejects it exactly when no frame was recorded. Otherwise it averages exactly the recorded frames, numbered 0, 1, 2, and so on. |
| `CaptureToServer.CaptureWithoutPersonIsRejected` | Controllers/HomeController.cs:60-61 | A capture in which no person was ever detected is answered with the "no frame data" error. |

## Left out

- `angleBetween` and `distance` (wwwroot/js/analyzeShot.js:22-35) are uninterpreted functions to `real`. Their square roots, arc cosine and division are not modelled. Neither is NaN: `angleBetween` divides by zero for coincident points and does not clamp the cosine, so a cosine that rounds just past -1 or 1 on a nearly straight arm also gives NaN.
- The capture window is not modelled: `performance.now` and the 5000 ms check, `requestAnimationFrame`, `getUserMedia` and the MoveNet detector. The steps taken before the window closed are given as a sequence of detector outputs. `detectFrame` always runs once, so the model has at least one step.
- `fetch`, JSON serialisation and showing the server's answer (wwwroot/js/analyzeShot.js:80-87) are not modelled; `StartAnalysis` returns the body that would be posted.
- Metrics are `real`, not C# `float`. The rounding of `Average` is not modelled, and neither is the fact that the literals `0.2f` and `0.7f` are not exactly 0.2 and 0.7.
- EF Core, SQLite, `SaveChangesAsync` and its failures, `async` and the database-generated `Id` are not modelled. The store is a sequence field; the key and `DateTime.UtcNow` are parameters.
- The `[Authorize]` attribute on `History` and `[HttpPost]` routing are left out. `History` takes the identity as a parameter and, like the query, matches nothing when the name is null.
- HomeController.HomeController.History: the order of rows with equal `CreatedAt` is not stated. The SQL `ORDER BY ... DESC` the query becomes does not fix it; the model's sort happens to keep store order.
- `HomePage`, `Index`, `Privacy`, `Error`, Program.cs, Data/ApplicationDbContext.cs and the migrations are framework plumbing with no logic; they are not part of this model.
- The client-supplied `userName` ("DemoUser") is bound but never read by `SaveAnalysis`; the model carries it in the request and nothing uses it.
- CaptureToServer.PostedCapture and CaptureToServer.AsRequest assume every recorded metric is a finite number. They do not model what happens to a NaN frame. `JSON.stringify` posts NaN as `null` (wwwroot/js/analyzeShot.js:83). `null` cannot be bound to the `float ElbowAngle`/`FeetDistance` of `FramePose` (Helpers/AnalysisHelper.cs:51-52). Without `[ApiController]`, the action then runs with a null `request`. So a capture with a single NaN frame is answered "No frame data received." (Controllers/HomeController.cs:60-61), even though frames were recorded.
- AnalyzeShot.ShotAnalyzer.StartAnalysis assumes one capture at a time. The Start button is never disabled (wwwroot/js/analyzeShot.js:90-93), so a second click during a capture runs `startAnalysis` again. That reassigns `detector` and `frames` (:40, :42) while the first `detectFrame` chain is still running. Both chains then push into the new array, and the first chain posts it at its own deadline (:72). Index equals position still holds, because each push reads `frames.length` right then. But the frames are no longer the accumulation of a single chain. Overlapping chains and the shared array are not modelled.
- HomeController.HomeController.SaveAnalysis does not model a frame list holding a `null` element. `FramePose` is a class (Helpers/AnalysisHelper.cs:48-53), so the default JSON input formatter (Program.cs:31) binds `"frames": [null]` as a one-element list. That list passes the guard (Controllers/HomeController.cs:60), and `f.ElbowAngle` at :63 then throws NullReferenceException. The client gets neither the BadRequest nor the Json answer: it gets the developer exception page in Development and the `/Home/Error` handler (Program.cs:47) elsewhere. The browser never posts such a list.
