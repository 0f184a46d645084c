/**
 * The analyzer web app's id scheme and table calibration: `new_analysis_id`, `analysis_dir`
 * and the checks of `calibrate_table`. The clock is a parameter, the directory test a flag,
 * and `os.sep` the separator character of the host.
 */
module AnalyzerApi {
  import opened Wrappers
  import opened Strings
  import opened Stamps

  const HTTP_BAD_REQUEST: int := 400
  const HTTP_NOT_FOUND: int := 404

  /** The number of table corners a calibration needs (top-left, top-right, bottom-right, bottom-left). */
  const CALIBRATION_POINTS: nat := 4

  /**
   * `<YYYY-MM-DD>/analysis-<seconds>`: the date of the naive UTC clock reading, and `now`
   * standing for `int(utcnow().timestamp())`. `timestamp()` reads the naive value as local
   * time, so `now` is Unix seconds only on a host whose local zone is UTC; the model takes it
   * as given either way.
   */
  function NewAnalysisId(today: Date, now: int): (id: string)
    ensures StartsWith(id, FormatDate(today) + "/analysis-")
    ensures |id| == |FormatDate(today)| + 10 + |IntToDecimal(now)| > |FormatDate(today)| + 10
    ensures id[|FormatDate(today)| + 10..] == IntToDecimal(now)
  {
    FormatDate(today) + "/analysis-" + IntToDecimal(now)
  }

  /** The id regrouped as date, '/', and the `analysis-<seconds>` part. */
  lemma IdParts(date: string, seconds: string)
    ensures date + "/analysis-" + seconds == date + ['/'] + ("analysis-" + seconds)
  {
    assert "/analysis-" == ['/'] + "analysis-";
  }

  /** An analysis id has exactly one '/', between the date and `analysis-<seconds>`. */
  lemma AnalysisIdShape(today: Date, now: int)
    ensures Split(NewAnalysisId(today, now), '/') == [FormatDate(today), "analysis-" + IntToDecimal(now)]
  {
    var date, tail := FormatDate(today), "analysis-" + IntToDecimal(now);
    IdParts(date, IntToDecimal(now));
    NoSlashInTail(now);
    SplitAt(date, '/', tail);
    SplitWhole(tail, '/');
  }

  /**
   * The part of the analysis directory that comes from the id: the id with every '/' replaced
   * by the host's separator. `analysis_dir` joins this onto the data directory; that join is
   * not part of this model.
   */
  function AnalysisDir(id: string, sep: char): (dir: string)
    ensures |dir| == |id|
    ensures sep != '/' ==> '/' !in dir
    ensures sep == '/' ==> dir == id
    ensures forall i :: 0 <= i < |id| && id[i] != '/' ==> dir[i] == id[i]
  {
    ReplaceChar(id, '/', sep)
  }

  /** For a fresh id the replaced id is the date directory holding `analysis-<seconds>`. */
  lemma AnalysisDirOfNewId(today: Date, now: int, sep: char)
    ensures AnalysisDir(NewAnalysisId(today, now), sep)
         == FormatDate(today) + [sep] + ("analysis-" + IntToDecimal(now))
  {
    var date, tail := FormatDate(today), "analysis-" + IntToDecimal(now);
    IdParts(date, IntToDecimal(now));
    NoSlashInTail(now);
    ReplaceCharBetween(date, tail, '/', sep);
  }

  /** The `analysis-<seconds>` part holds no '/'. */
  lemma NoSlashInTail(now: int)
    ensures '/' !in "analysis-" + IntToDecimal(now)
  {
    var tail := "analysis-" + IntToDecimal(now);
    NoSlashInDecimal(now);
    forall j | 0 <= j < |tail|
      ensures tail[j] != '/'
    {
      if j >= 9 {
        assert tail[j] == IntToDecimal(now)[j - 9];
      }
    }
  }

  /** What `calibrate_table` stores in `table_calib.json`. */
  datatype Calibration = Calibration(imgPts: seq<seq<real>>)

  /**
   * `calibrate_table`: 404 when the analysis directory does not exist, 400 unless exactly
   * four points arrive, otherwise the points are stored as they are and echoed back.
   */
  function CalibrateTable(dirExists: bool, points: seq<seq<real>>): (r: Result<(Calibration, seq<seq<real>>), int>)
    ensures r.Ok? <==> dirExists && |points| == CALIBRATION_POINTS
    ensures r.Ok? ==> r.value.0.imgPts == points && r.value.1 == points
    ensures !dirExists ==> r == Err(HTTP_NOT_FOUND)
    ensures dirExists && |points| != CALIBRATION_POINTS ==> r == Err(HTTP_BAD_REQUEST)
  {
    if !dirExists then Err(HTTP_NOT_FOUND)
    else if |points| != CALIBRATION_POINTS then Err(HTTP_BAD_REQUEST)
    else Ok((Calibration(points), points))
  }
}
