/**
 * The HeishaMon firmware update entity (`HeishaMonMQTTUpdate`): it infers
 * the installed firmware from which topics the device publishes, prefers the
 * version carried in the stats message once one has been seen, and shows the
 * latest release tag without its leading "v".
 *
 * The stats payload is given already decoded (`StatsPayload`); the release
 * list is given as the decoded answer of the release query.
 */
module FirmwareUpdate {
  import opened Wrappers

  /** The stats message as `json.loads(payload).get("version", None)` sees it. */
  datatype StatsPayload =
    /** A payload that is not a JSON object: decoding raises. */
    | Malformed
    /** The value of its `version` field, `None` when absent or null. */
    | Decoded(version: Option<string>)

  /** Python truthiness of the version field: present and non-empty. */
  predicate Truthy(v: Option<string>) {
    v.Some? && |v.value| > 0
  }

  /** The part of the entity's state the messages change. */
  datatype VersionState = VersionState(installedVersion: Option<string>, statsFirmwareContainVersion: Option<bool>)

  const INITIAL: VersionState := VersionState(None, None)

  function Marker32Topic(prefix: string): string { prefix + "main/Heat_Power_Production" }
  function Marker31Topic(prefix: string): string { prefix + "main/Heat_Energy_Production" }
  function StatsTopic(prefix: string): string { prefix + "stats" }

  /** The three topics differ whatever the prefix. */
  lemma TopicsDistinct(prefix: string)
    ensures Marker32Topic(prefix) != Marker31Topic(prefix)
    ensures Marker32Topic(prefix) != StatsTopic(prefix) && Marker31Topic(prefix) != StatsTopic(prefix)
  {
    assert Marker32Topic(prefix)[|prefix| + 5] == 'H' && Marker31Topic(prefix)[|prefix| + 5] == 'H';
    assert Marker32Topic(prefix)[|prefix| + 10] == 'P' && Marker31Topic(prefix)[|prefix| + 10] == 'E';
    assert |StatsTopic(prefix)| < |Marker32Topic(prefix)| && |StatsTopic(prefix)| < |Marker31Topic(prefix)|;
  }

  /**
   * `message_received` on the state: the two marker tests and the stats test
   * run one after the other. A stats payload that does not decode raises and
   * leaves the state as the marker tests made it.
   */
  function Receive(prefix: string, s: VersionState, topic: string, payload: StatsPayload): VersionState {
    var s1 := if topic == Marker32Topic(prefix) then s.(installedVersion := Some("3.2")) else s;
    var s2 := if topic == Marker31Topic(prefix) then s1.(installedVersion := Some("<= 3.1")) else s1;
    if topic == StatsTopic(prefix) && payload.Decoded? then
      if Truthy(payload.version) then
        s2.(statsFirmwareContainVersion := Some(true), installedVersion := payload.version)
      else s2.(statsFirmwareContainVersion := Some(false))
    else s2
  }

  /** Whether handling the message raises (the stats payload did not decode). */
  predicate Raises(prefix: string, topic: string, payload: StatsPayload) {
    topic == StatsTopic(prefix) && payload.Malformed?
  }

  /**
   * What one message does: the 3.2 marker reports "3.2", the legacy marker
   * "<= 3.1"; a stats message carrying a version installs it and sets the flag;
   * one without clears the flag and keeps the installed version; other topics
   * change nothing.
   */
  lemma ReceiveCases(prefix: string, s: VersionState, topic: string, payload: StatsPayload)
    ensures var r := Receive(prefix, s, topic, payload);
      && (topic == Marker32Topic(prefix) ==> r == s.(installedVersion := Some("3.2")))
      && (topic == Marker31Topic(prefix) ==> r == s.(installedVersion := Some("<= 3.1")))
      && (topic == StatsTopic(prefix) && payload.Decoded? && Truthy(payload.version) ==>
            r == VersionState(payload.version, Some(true)))
      && (topic == StatsTopic(prefix) && payload.Decoded? && !Truthy(payload.version) ==>
            r == s.(statsFirmwareContainVersion := Some(false)))
      && (topic == StatsTopic(prefix) && payload.Malformed? ==> r == s)
      && (topic !in {Marker32Topic(prefix), Marker31Topic(prefix), StatsTopic(prefix)} ==> r == s)
  {
    TopicsDistinct(prefix);
  }

  /** A message as the subscription delivers it. */
  datatype Message = Message(topic: string, payload: StatsPayload)

  function Run(prefix: string, s: VersionState, msgs: seq<Message>): VersionState
    decreases |msgs|
  {
    if |msgs| == 0 then s else Run(prefix, Receive(prefix, s, msgs[0].topic, msgs[0].payload), msgs[1..])
  }

  /** A stats message that decodes. */
  predicate DecodedStats(prefix: string, m: Message) {
    m.topic == StatsTopic(prefix) && m.payload.Decoded?
  }

  /**
   * The flag never returns to unset, and starting unset it is set exactly
   * when some stats message decoded; before that, nothing is ever written.
   */
  lemma {:induction false} FlagOnceSetStaysSet(prefix: string, s: VersionState, msgs: seq<Message>)
    ensures s.statsFirmwareContainVersion.Some? ==> Run(prefix, s, msgs).statsFirmwareContainVersion.Some?
    ensures s.statsFirmwareContainVersion.None? ==>
      (Run(prefix, s, msgs).statsFirmwareContainVersion.Some? <==>
         exists i :: 0 <= i < |msgs| && DecodedStats(prefix, msgs[i]))
    decreases |msgs|
  {
    if |msgs| > 0 {
      var s1 := Receive(prefix, s, msgs[0].topic, msgs[0].payload);
      FlagOnceSetStaysSet(prefix, s1, msgs[1..]);
      if s.statsFirmwareContainVersion.None? {
        if DecodedStats(prefix, msgs[0]) {
          assert s1.statsFirmwareContainVersion.Some?;
        } else {
          assert s1.statsFirmwareContainVersion.None?;
          assert (exists i :: 0 <= i < |msgs| && DecodedStats(prefix, msgs[i])) <==>
                 (exists i :: 0 <= i < |msgs[1..]| && DecodedStats(prefix, msgs[1..][i])) by {
            forall i | 0 < i < |msgs| ensures msgs[i] == msgs[1..][i - 1] {}
          }
        }
      }
    }
  }

  /** `re.sub(r"^v", "", tag)`: one leading "v" is dropped. */
  function StripTag(tag: string): (version: string)
    ensures |tag| > 0 && tag[0] == 'v' ==> tag == "v" + version
    ensures !(|tag| > 0 && tag[0] == 'v') ==> version == tag
  {
    if |tag| > 0 && tag[0] == 'v' then tag[1..] else tag
  }

  /** Only one "v" goes: "vv1" becomes "v1". */
  lemma StripTagOnce(t: string)
    ensures StripTag("v" + t) == t
    ensures StripTag(StripTag("vv" + t)) == t
    ensures StripTag("vv" + t) == "v" + t
  {
    assert ("v" + t)[1..] == t;
    assert ("vv" + t)[1..] == "v" + t;
  }

  /** A release as the GitHub release list gives it. */
  datatype Release = Release(tagName: string, htmlUrl: string, body: Option<string>)

  /** The fixed warning in front of the release notes. */
  const RELEASE_NOTES_HEADER: string :=
    "\U{26A0} Update is not supported via HA. Update is done via heishamon webui\n\n\n"
    + "HA needs to be restarted after heishamon update for this message to disappear\n\n\n"

  /** `str(notes)`: the text itself or "None". */
  function NotesText(notes: Option<string>): string {
    if notes.Some? then notes.value else "None"
  }

  /** `HeishaMonMQTTUpdate`. */
  class FirmwareUpdateEntity {
    const discoveryPrefix: string
    var installedVersion: Option<string>
    var statsFirmwareContainVersion: Option<bool>
    var latestVersion: Option<string>
    var releaseUrl: string
    var releaseNotesText: Option<string>

    function State(): VersionState
      reads this
    {
      VersionState(installedVersion, statsFirmwareContainVersion)
    }

    constructor (discoveryPrefix: string)
      ensures this.discoveryPrefix == discoveryPrefix && State() == INITIAL
      ensures latestVersion.None? && releaseNotesText.None?
      ensures releaseUrl == "https://github.com/Egyras/HeishaMon/releases"
    {
      this.discoveryPrefix := discoveryPrefix;
      installedVersion := None;
      statsFirmwareContainVersion := None;
      latestVersion := None;
      releaseUrl := "https://github.com/Egyras/HeishaMon/releases";
      releaseNotesText := None;
    }

    /**
     * `message_received`: `r` is `Success(written)`, whether the state is
     * written out (only once the flag is set), or the decoding error.
     */
    method MessageReceived(topic: string, payload: StatsPayload) returns (r: Result<bool, Exception>)
      modifies this
      ensures State() == Receive(discoveryPrefix, old(State()), topic, payload)
      ensures Raises(discoveryPrefix, topic, payload) ==> r == Failure(ValueError)
      ensures !Raises(discoveryPrefix, topic, payload) ==> r == Success(statsFirmwareContainVersion.Some?)
      ensures latestVersion == old(latestVersion) && releaseUrl == old(releaseUrl) && releaseNotesText == old(releaseNotesText)
    {
      if topic == Marker32Topic(discoveryPrefix) {
        installedVersion := Some("3.2");
      }
      if topic == Marker31Topic(discoveryPrefix) {
        installedVersion := Some("<= 3.1");
      }
      if topic == StatsTopic(discoveryPrefix) {
        if payload.Malformed? {
          return Failure(ValueError);
        }
        if Truthy(payload.version) {
          statsFirmwareContainVersion := Some(true);
          installedVersion := payload.version;
        } else {
          statsFirmwareContainVersion := Some(false);
        }
      }
      return Success(statsFirmwareContainVersion.Some?);
    }

    /**
     * `_update_latest_release` once the query has answered: a status other
     * than 200 changes nothing; an empty list raises `IndexError` on
     * `releases[0]`; otherwise the first release gives the latest version,
     * the release page and the notes.
     */
    method UpdateLatestRelease(status: int, releases: seq<Release>) returns (r: Result<(), Exception>)
      modifies this
      ensures status != 200 ==>
        && r == Success(()) && latestVersion == old(latestVersion)
        && releaseUrl == old(releaseUrl) && releaseNotesText == old(releaseNotesText)
      ensures status == 200 && |releases| == 0 ==>
        && r == Failure(IndexError) && latestVersion == old(latestVersion)
        && releaseUrl == old(releaseUrl) && releaseNotesText == old(releaseNotesText)
      ensures status == 200 && |releases| > 0 ==>
        && r == Success(())
        && latestVersion == Some(StripTag(releases[0].tagName))
        && releaseUrl == releases[0].htmlUrl && releaseNotesText == releases[0].body
      ensures State() == old(State())
    {
      if status != 200 {
        return Success(());
      }
      if |releases| == 0 {
        return Failure(IndexError);
      }
      var last := releases[0];
      latestVersion := Some(StripTag(last.tagName));
      releaseUrl := last.htmlUrl;
      releaseNotesText := last.body;
      return Success(());
    }

    /** `release_notes()`: always the fixed header, then the stored notes or "None". */
    function ReleaseNotes(): (notes: string)
      reads this
      ensures |notes| == |RELEASE_NOTES_HEADER| + |NotesText(releaseNotesText)|
      ensures notes[..|RELEASE_NOTES_HEADER|] == RELEASE_NOTES_HEADER
      ensures notes[|RELEASE_NOTES_HEADER|..] == NotesText(releaseNotesText)
    {
      RELEASE_NOTES_HEADER + NotesText(releaseNotesText)
    }
  }
}
