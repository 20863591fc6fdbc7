/** The depot Wi-Fi gate. Its monitoring loop is switched off in the app:
    starting the monitor opens the gate at once, stopping it only forgets
    the stability timestamps, and a reset closes the gate again. */
module WifiGateManager {
  import opened Common
  import opened Text

  /** The status record the screens observe. */
  datatype WifiGateStatus = WifiGateStatus(
    ssid: string,
    rssi: Int32,
    isOnTargetWifi: bool,
    isStrongEnough: bool,
    stableMs: Int64,
    gatePassed: bool)

  const DEFAULT_STATUS: WifiGateStatus := WifiGateStatus("Unknown", 0, false, false, 0, false)

  /** The manager: the published status, the stability timestamps and the
      monitoring flag. */
  datatype Gate = Gate(status: WifiGateStatus, goodStartAt: Option<Int64>, lastGoodAt: Option<Int64>, isMonitoring: bool)

  function Create(): (g: Gate)
    ensures !g.status.gatePassed && g.status.ssid == "Unknown"
    ensures g.goodStartAt.None? && g.lastGoodAt.None? && !g.isMonitoring
  {
    Gate(DEFAULT_STATUS, None, None, false)
  }

  /** `cleanSsid`: trim, then drop one leading and one trailing double quote. */
  function CleanSsid(raw: string): (r: string)
    ensures |Trim(raw)| - 2 <= |r| <= |Trim(raw)|
    ensures exists i, j :: 0 <= i <= 1 && |Trim(raw)| - 1 <= j <= |Trim(raw)| && i <= j && r == Trim(raw)[i..j]
  {
    StripQuotesIsSlice(Trim(raw));
    RemoveSuffix(RemovePrefix(Trim(raw), "\""), "\"")
  }

  /** Dropping one leading and one trailing quote keeps a slice of the text
      that loses at most one character at each end. */
  lemma StripQuotesIsSlice(t: string)
    ensures var r := RemoveSuffix(RemovePrefix(t, "\""), "\"");
      exists i, j :: 0 <= i <= 1 && |t| - 1 <= j <= |t| && i <= j && r == t[i..j]
  {
    var u := RemovePrefix(t, "\"");
    var i := if StartsWith(t, "\"") then 1 else 0;
    assert u == t[i..];
    var j := if EndsWith(u, "\"") then |t| - 1 else |t|;
    assert RemoveSuffix(u, "\"") == t[i..j];
  }

  /** A quoted name loses exactly its quotes, whatever it holds. */
  lemma CleanSsidQuoted(raw: string, s: string)
    requires Trim(raw) == "\"" + s + "\""
    ensures CleanSsid(raw) == s
  {
    var t := Trim(raw);
    assert StartsWith(t, "\"");
    assert t[1..] == s + "\"";
    var u := RemovePrefix(t, "\"");
    assert u == s + "\"";
    assert EndsWith(u, "\"");
  }

  /** A name without quotes at either end is only trimmed. */
  lemma CleanSsidUnquoted(raw: string)
    requires !StartsWith(Trim(raw), "\"") && !EndsWith(Trim(raw), "\"")
    ensures CleanSsid(raw) == Trim(raw)
  {
  }

  /** At most one quote goes from each end. */
  lemma CleanSsidStripsOnce(s: string)
    ensures CleanSsid("\"\"" + s + "\"\"") == "\"" + s + "\""
  {
    var q := "\"" + s + "\"";
    var t := "\"" + q + "\"";
    assert "\"\"" + s + "\"\"" == t;
    assert t[0] == '"' && t[|t| - 1] == '"';
    TrimNoEdges(t);
    CleanSsidQuoted(t, q);
  }

  /** A string with no whitespace at either end trims to itself. */
  lemma TrimNoEdges(t: string)
    requires |t| > 0 && !IsWhitespace(t[0]) && !IsWhitespace(t[|t| - 1])
    ensures Trim(t) == t
  {
  }

  /** `startMonitoring` as the app ships it: the default status with the
      gate passed; the timestamps and the monitoring flag stay as they are. */
  function StartMonitoring(g: Gate): (r: Gate)
    ensures r.status.gatePassed
    ensures r.status.(gatePassed := false) == DEFAULT_STATUS
    ensures r.goodStartAt == g.goodStartAt && r.lastGoodAt == g.lastGoodAt && r.isMonitoring == g.isMonitoring
  {
    g.(status := DEFAULT_STATUS.(gatePassed := true))
  }

  /** `stopMonitoring`: forget the timestamps; the status is left alone. */
  function StopMonitoring(g: Gate): (r: Gate)
    ensures r.status == g.status
    ensures r.goodStartAt.None? && r.lastGoodAt.None? && !r.isMonitoring
  {
    g.(isMonitoring := false, goodStartAt := None, lastGoodAt := None)
  }

  /** `reset`: the default status and no timestamps. */
  function Reset(g: Gate): (r: Gate)
    ensures r.status == DEFAULT_STATUS && !r.status.gatePassed
    ensures r.goodStartAt.None? && r.lastGoodAt.None? && r.isMonitoring == g.isMonitoring
  {
    g.(goodStartAt := None, lastGoodAt := None, status := DEFAULT_STATUS)
  }

  /** Starting is idempotent, the gate stays open after a stop, and only a
      reset closes it. */
  lemma GateLifecycle(g: Gate)
    ensures StartMonitoring(StartMonitoring(g)) == StartMonitoring(g)
    ensures StopMonitoring(StartMonitoring(g)).status.gatePassed
    ensures !Reset(StartMonitoring(g)).status.gatePassed
    ensures Reset(Reset(g)) == Reset(g)
  {
  }
}
