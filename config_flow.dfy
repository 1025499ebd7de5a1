/**
 * The HeishaMon configuration flow (`HeishaMonFlowHandler`): an MQTT
 * discovery message on a `.../main/Heatpump_State` topic yields the topic
 * prefix of one heat pump, which becomes the config entry's only datum and,
 * behind the domain name, its unique id.
 *
 * The set of unique ids already configured is a parameter; the flow's
 * unique id is recorded in a field.
 */
module ConfigFlow {
  import opened Wrappers
  import opened PyText

  const DOMAIN := "aquarea"
  const MARKER := "main/Heatpump_State"

  /** The id entries of versions before 0.9.0 carry, and the id it stands for. */
  const LEGACY_ID := "aquarea"
  const LEGACY_PREFIX_ID := "aquarea-panasonic_heat_pump/"
  const DEFAULT_PREFIX := "panasonic_heat_pump/"

  /** What a step returns to Home Assistant. */
  datatype FlowResult =
    | Abort(reason: string)
    | ShowForm(stepId: string, discoveryTopic: string)
    | CreateEntry(title: string, data: map<string, string>)

  /** `topic.replace("main/Heatpump_State", "")`: every occurrence goes. */
  function PrefixOf(topic: string): (prefix: string)
    ensures |prefix| <= |topic|
  {
    RemoveAll(topic, MARKER)
  }

  /** `f"{DOMAIN}-{prefix}"`. */
  function UniqueIdOf(prefix: string): (id: string)
    ensures |id| == |DOMAIN| + 1 + |prefix|
    ensures id[..|DOMAIN| + 1] == DOMAIN + "-" && id[|DOMAIN| + 1..] == prefix
  {
    DOMAIN + "-" + prefix
  }

  /** The duplicate test, with the legacy id also blocking the default prefix. */
  predicate AlreadyConfigured(id: string, existing: set<string>) {
    id in existing || (LEGACY_ID in existing && id == LEGACY_PREFIX_ID)
  }

  /**
   * A topic that is a prefix followed by the marker, with the marker nowhere
   * else, gives back exactly that prefix.
   */
  lemma PrefixOfDiscoveryTopic(p: string)
    requires forall i: nat :: i < |p| ==> !OccursAt(p + MARKER, MARKER, i)
    ensures EndsWith(p + MARKER, MARKER)
    ensures PrefixOf(p + MARKER) == p
  {
    RemoveAllOfSuffix(p, MARKER);
    assert (p + MARKER)[|p + MARKER| - |MARKER|..] == MARKER;
  }

  /**
   * The marker's only capital "H" is its sixth character, so the marker
   * cannot start inside a prefix that has no "H".
   */
  lemma PrefixWithoutCapitalH(p: string)
    requires 'H' !in p
    ensures EndsWith(p + MARKER, MARKER)
    ensures PrefixOf(p + MARKER) == p
  {
    var s := p + MARKER;
    assert MARKER[..5] == "main/" && MARKER[5] == 'H';
    forall i: nat | i < |p| ensures !OccursAt(s, MARKER, i) {
      if i + 5 < |p| {
        assert s[i + 5] == p[i + 5];
      } else if i + |MARKER| <= |s| {
        assert s[i + 5] == MARKER[i + 5 - |p|] == MARKER[..5][i + 5 - |p|];
      }
    }
    PrefixOfDiscoveryTopic(p);
  }

  /** The removal is global: a marker inside the prefix is removed too. */
  lemma PrefixRemovesEveryMarker(p: string)
    ensures PrefixOf(MARKER + p) == PrefixOf(p)
  {
    assert (MARKER + p)[..|MARKER|] == MARKER;
    assert (MARKER + p)[|MARKER|..] == p;
  }

  /** `HeishaMonFlowHandler`. */
  class FlowHandler {
    var prefix: Option<string>
    var uniqueId: Option<string>

    constructor ()
      ensures prefix.None? && uniqueId.None?
    {
      prefix := None;
      uniqueId := None;
    }

    /**
     * `async_step_confirm`: without a (non-empty) prefix the flow aborts; with
     * no user input the confirmation form is shown; otherwise the entry is
     * created with the prefix as its only datum.
     */
    method StepConfirm(userInput: Option<map<string, string>>) returns (r: FlowResult)
      ensures prefix.None? || prefix == Some("") ==> r == Abort("unsupported_manual_setup")
      ensures prefix.Some? && prefix.value != "" && userInput.None? ==> r == ShowForm("confirm", prefix.value)
      ensures prefix.Some? && prefix.value != "" && userInput.Some? ==>
        r == CreateEntry("HeishaMon via " + prefix.value + " topic", map["discovery_prefix" := prefix.value])
    {
      if prefix.None? || prefix.value == "" {
        return Abort("unsupported_manual_setup");
      }
      var data := map["discovery_prefix" := prefix.value];
      if userInput.None? {
        return ShowForm("confirm", prefix.value);
      }
      return CreateEntry("HeishaMon via " + prefix.value + " topic", data);
    }

    /**
     * `async_step_mqtt`: a topic not ending in the marker aborts; otherwise
     * the prefix is recorded, an id already configured aborts, and a new one
     * is set as the flow's unique id before the confirmation step runs with
     * no user input.
     */
    method StepMqtt(topic: string, existingIds: set<string>) returns (r: FlowResult)
      modifies this
      ensures !EndsWith(topic, MARKER) ==>
        r == Abort("invalid_discovery_info") && prefix == old(prefix) && uniqueId == old(uniqueId)
      ensures EndsWith(topic, MARKER) ==> prefix == Some(PrefixOf(topic))
      ensures EndsWith(topic, MARKER) && AlreadyConfigured(UniqueIdOf(PrefixOf(topic)), existingIds) ==>
        r == Abort("instance_already_configured") && uniqueId == old(uniqueId)
      ensures EndsWith(topic, MARKER) && !AlreadyConfigured(UniqueIdOf(PrefixOf(topic)), existingIds) ==>
        && uniqueId == Some(UniqueIdOf(PrefixOf(topic)))
        && r == (if PrefixOf(topic) == "" then Abort("unsupported_manual_setup") else ShowForm("confirm", PrefixOf(topic)))
    {
      if !EndsWith(topic, MARKER) {
        return Abort("invalid_discovery_info");
      }
      prefix := Some(PrefixOf(topic));
      var id := UniqueIdOf(prefix.value);
      var existing := existingIds;
      if LEGACY_ID in existing && id == LEGACY_PREFIX_ID {
        existing := existing + {LEGACY_PREFIX_ID};
      }
      if id in existing {
        return Abort("instance_already_configured");
      }
      uniqueId := Some(id);
      r := StepConfirm(None);
    }
  }

  /** The default prefix has no capital "H". */
  lemma DefaultPrefixWithoutCapitalH()
    ensures 'H' !in DEFAULT_PREFIX
  {
    assert DEFAULT_PREFIX == ['p', 'a', 'n', 'a', 's', 'o', 'n', 'i', 'c', '_', 'h', 'e', 'a', 't', '_', 'p', 'u', 'm', 'p', '/'];
  }

  /** The default prefix yields the id the legacy rule guards. */
  lemma DefaultPrefixId()
    ensures UniqueIdOf(DEFAULT_PREFIX) == LEGACY_PREFIX_ID
  {
    assert DOMAIN + "-" + DEFAULT_PREFIX == LEGACY_PREFIX_ID;
  }

  /**
   * A legacy installation blocks rediscovery of the default prefix: any
   * topic that is the default prefix followed by the marker.
   */
  lemma LegacyBlocksDefaultPrefix(existing: set<string>, topic: string)
    requires LEGACY_ID in existing
    requires topic == DEFAULT_PREFIX + MARKER
    ensures EndsWith(topic, MARKER)
    ensures AlreadyConfigured(UniqueIdOf(PrefixOf(topic)), existing)
  {
    DefaultPrefixWithoutCapitalH();
    DefaultPrefixId();
    PrefixWithoutCapitalH(DEFAULT_PREFIX);
  }

  /** The bare marker topic yields an empty prefix, which the confirmation refuses. */
  lemma BareMarkerHasEmptyPrefix()
    ensures EndsWith(MARKER, MARKER) && PrefixOf(MARKER) == ""
  {
    PrefixOfDiscoveryTopic("");
    assert "" + MARKER == MARKER;
  }
}
