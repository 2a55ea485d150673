/**
 * APMonitor.read_link_status: the link state of the monitored interface, taken
 * from /sys/class/net/<iface>/operstate when that file holds one of the four
 * words it decides on, and otherwise guessed from the output of `ip link show`.
 * Each command's output is a parameter: None stands for a command that raised,
 * which the source swallows.
 */
module LinkState {
  import opened Maybe
  import opened Text

  datatype LinkStatus = Up | Down | Unknown

  /** The operstate words the first probe accepts as final. */
  predicate Decisive(word: string) {
    word == "up" || word == "down" || word == "dormant" || word == "unknown"
  }

  /** The first probe: the stripped, lower-cased operstate file, if it holds a decisive word. */
  function OperState(output: string): (r: Option<LinkStatus>)
    ensures r.Some? <==> Decisive(Lower(Strip(output)))
    ensures r == Some(Up) <==> Lower(Strip(output)) == "up"
    ensures r == Some(Down) <==> Lower(Strip(output)) == "down"
  {
    var s := Lower(Strip(output));
    if s == "up" then Some(Up)
    else if s == "down" then Some(Down)
    else if s == "dormant" || s == "unknown" then Some(Unknown)
    else None
  }

  /** The fallback probe: flags and state words in the `ip link show` output; UP is looked for first. */
  function IpLinkState(output: string): (r: LinkStatus)
    ensures Contains(output, " state UP") || Contains(output, "<UP,") ==> r == Up
    ensures r == Down ==> Contains(output, " state DOWN")
    ensures r == Unknown ==> !Contains(output, " state UP") && !Contains(output, "<UP,") && !Contains(output, " state DOWN")
  {
    if Contains(output, " state UP") || Contains(output, "<UP,") then Up
    else if Contains(output, " state DOWN") then Down
    else Unknown
  }

  /** read_link_status given the two command outputs (None: that command raised). */
  function ReadLinkStatus(operstate: Option<string>, ipLink: Option<string>): (r: LinkStatus)
    ensures operstate.None? && ipLink.None? ==> r == Unknown
    ensures r == Down ==> (operstate.Some? && Lower(Strip(operstate.value)) == "down")
                          || (ipLink.Some? && Contains(ipLink.value, " state DOWN"))
  {
    if operstate.Some? && OperState(operstate.value).Some? then OperState(operstate.value).value
    else if ipLink.Some? then IpLinkState(ipLink.value)
    else Unknown
  }

  /** When the operstate word is decisive the `ip link` output plays no part. */
  lemma OperStateIsAuthoritative(output: string, ipLink: Option<string>)
    requires Decisive(Lower(Strip(output)))
    ensures ReadLinkStatus(Some(output), ipLink) == ReadLinkStatus(Some(output), None)
    ensures ReadLinkStatus(Some(output), ipLink) != Unknown <==> Lower(Strip(output)) in {"up", "down"}
  {
  }

  /** Without a decisive operstate word the answer is the fallback's, or Unknown when it raised too. */
  lemma FallbackDecides(operstate: Option<string>, ipLink: Option<string>)
    requires operstate.None? || !Decisive(Lower(Strip(operstate.value)))
    ensures ReadLinkStatus(operstate, ipLink) == if ipLink.Some? then IpLinkState(ipLink.value) else Unknown
  {
  }

  /** The answer is Up exactly when a probe reports it, the first probe taking precedence. */
  lemma UpOnlyOnEvidence(operstate: Option<string>, ipLink: Option<string>)
    ensures ReadLinkStatus(operstate, ipLink) == Up <==>
              (operstate.Some? && Lower(Strip(operstate.value)) == "up")
              || ((operstate.None? || !Decisive(Lower(Strip(operstate.value))))
                  && ipLink.Some? && (Contains(ipLink.value, " state UP") || Contains(ipLink.value, "<UP,")))
  {
  }

  /** Case and surrounding whitespace in the operstate file do not matter. */
  lemma PaddedUpperCaseUp()
    ensures ReadLinkStatus(Some(" UP\n"), None) == Up
  {
    assert " UP\n"[1..] == "UP\n" && "UP\n"[..2] == "UP";
    assert TrimLeft(" UP\n") == "UP\n";
    assert TrimRight("UP\n") == "UP";
    assert Lower("UP") == "up";
  }

  /** "dormant" is decisive: it yields Unknown even when `ip link` would report UP. */
  lemma DormantIsUnknown()
    ensures ReadLinkStatus(Some("Dormant"), Some("<BROADCAST,UP,LOWER_UP> state UP")) == Unknown
  {
    DormantOperstate();
  }

  lemma DormantOperstate()
    ensures OperState("Dormant") == Some(Unknown)
  {
    assert TrimLeft("Dormant") == "Dormant";
    assert TrimRight("Dormant") == "Dormant";
    assert Lower("Dormant") == "dormant";
  }

  /** A blank operstate file (empty, or whitespace only) decides nothing. */
  lemma BlankOperstate(output: string)
    requires AllSpace(output)
    ensures OperState(output) == None
  {
    StripBlank(output);
    assert |Lower(Strip(output))| == 0;
  }

  /** An `ip link show` line ending in "state UP" reads as Up when the operstate file is blank. */
  lemma StateUpWhenOperstateBlank(blank: string, line: string)
    requires AllSpace(blank)
    ensures ReadLinkStatus(Some(blank), Some(line + " state UP")) == Up
  {
    BlankOperstate(blank);
    ContainsEnd(line, " state UP");
  }
}
