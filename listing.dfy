/**
 * The s0 and 1-wire discovery listeners: each keeps the device ids it has
 * seen in a sorted list without duplicates, asks for new sensor entities the
 * first time an id appears, and displays the known ids joined by ", ". Both
 * integrations carry the same logic.
 */
module Listing {
  import opened Wrappers
  import opened PyText

  /**
   * `known.append(id)` followed by `known.sort()` on a list that is already
   * sorted: the id lands in its place.
   */
  function Insert(known: seq<string>, id: string): (r: seq<string>)
    ensures |r| == |known| + 1
    ensures multiset(r) == multiset(known) + multiset{id}
  {
    if |known| == 0 then [id]
    else if Below(id, known[0]) then [id] + known
    else
      assert known == [known[0]] + known[1..];
      [known[0]] + Insert(known[1..], id)
  }

  lemma {:induction false} InsertSorted(known: seq<string>, id: string)
    requires Sorted(known) && id !in known
    ensures Sorted(Insert(known, id))
    decreases |known|
  {
    if |known| > 0 && !Below(id, known[0]) {
      BelowTotal(id, known[0]);
      var rest := Insert(known[1..], id);
      assert Sorted(known[1..]) by {
        forall i, j | 0 <= i < j < |known[1..]| ensures Below(known[1..][i], known[1..][j]) {
          assert known[1..][i] == known[i + 1] && known[1..][j] == known[j + 1];
        }
      }
      InsertSorted(known[1..], id);
      forall k | 0 <= k < |rest| ensures Below(known[0], rest[k]) {
        assert rest[k] in multiset(rest);
        if rest[k] != id {
          assert rest[k] in multiset(known[1..]);
          var m :| 0 <= m < |known[1..]| && known[1..][m] == rest[k];
          assert known[m + 1] == rest[k];
        }
      }
      var r := [known[0]] + rest;
      forall i, j | 0 <= i < j < |r| ensures Below(r[i], r[j]) {
        if i > 0 {
          assert r[i] == rest[i - 1] && r[j] == rest[j - 1];
        } else {
          assert r[j] == rest[j - 1];
        }
      }
    } else if |known| > 0 {
      var r := [id] + known;
      forall i, j | 0 <= i < j < |r| ensures Below(r[i], r[j]) {
        if i > 0 {
          assert r[i] == known[i - 1] && r[j] == known[j - 1];
        } else if j > 1 {
          assert Below(known[0], known[j - 1]);
          BelowTransitive(id, known[0], known[j - 1]);
        }
      }
    }
  }

  /**
   * A sorted list is the only sorted arrangement of its elements, so the
   * inserted list is exactly what `append` and `sort` produce.
   */
  lemma {:induction false} SortedIsUnique(a: seq<string>, b: seq<string>)
    requires Sorted(a) && Sorted(b) && multiset(a) == multiset(b)
    ensures a == b
    decreases |a|
  {
    assert |a| == |multiset(a)| == |b|;
    if |a| > 0 {
      assert a[0] in multiset(b) && b[0] in multiset(a);
      if a[0] != b[0] {
        var i :| 0 <= i < |b| && b[i] == a[0];
        var j :| 0 <= j < |a| && a[j] == b[0];
        assert i > 0 && j > 0;
        BelowTransitive(a[0], b[0], a[0]);
        BelowIrreflexive(a[0]);
        assert false;
      }
      SortedTail(a);
      SortedTail(b);
      SortedIsUnique(a[1..], b[1..]);
    }
  }

  /** The tail of a non-empty sorted list is sorted and holds the other elements. */
  lemma SortedTail(a: seq<string>)
    requires Sorted(a) && |a| > 0
    ensures Sorted(a[1..])
    ensures multiset(a[1..]) == multiset(a) - multiset{a[0]}
  {
    assert a == [a[0]] + a[1..];
    forall i, j | 0 <= i < j < |a[1..]| ensures Below(a[1..][i], a[1..][j]) {
      assert a[1..][i] == a[i + 1] && a[1..][j] == a[j + 1];
    }
  }

  /** `append` then `sort` on a sorted list of ids: whatever sorted arrangement results is `Insert`'s. */
  lemma AppendThenSort(known: seq<string>, id: string, sorted: seq<string>)
    requires Sorted(known) && id !in known
    requires Sorted(sorted) && multiset(sorted) == multiset(known + [id])
    ensures sorted == Insert(known, id)
  {
    InsertSorted(known, id);
    SortedIsUnique(sorted, Insert(known, id));
  }

  /** A message's effect on the known list: an unknown id is inserted, a known one changes nothing. */
  function AddId(known: seq<string>, id: string): seq<string> {
    if id in known then known else Insert(known, id)
  }

  /** The known list after ids arrive in the given order, starting from `[]`. */
  function KnownAfter(ids: seq<string>): seq<string>
    decreases |ids|
  {
    if |ids| == 0 then [] else AddId(KnownAfter(ids[..|ids| - 1]), ids[|ids| - 1])
  }

  /**
   * Whatever the order of arrival and however often an id repeats, the known
   * list is sorted, free of duplicates and holds exactly the ids seen.
   */
  lemma {:induction false} KnownAfterIsSortedSetOfIds(ids: seq<string>)
    ensures Sorted(KnownAfter(ids))
    ensures forall x :: x in KnownAfter(ids) <==> x in ids
    decreases |ids|
  {
    if |ids| > 0 {
      var init := ids[..|ids| - 1];
      var last := ids[|ids| - 1];
      KnownAfterIsSortedSetOfIds(init);
      var k := KnownAfter(init);
      assert ids == init + [last];
      if last !in k {
        InsertSorted(k, last);
        forall x ensures x in Insert(k, last) <==> x in ids {
          assert x in Insert(k, last) <==> x in multiset(Insert(k, last));
        }
      }
    }
  }

  /** A sensor entity the listener asks to be added: its topic id and MQTT key. */
  datatype NewSensor = NewSensor(topicId: string, key: string)

  /** The three sensors created for a new s0 input. */
  function S0Sensors(base: string, s0: string, id: string): (sensors: seq<NewSensor>)
    ensures |sensors| == 3
    ensures sensors[0].topicId == "s0-" + id + "-watthour"
    ensures sensors[1].topicId == "s0-" + id + "-totalwatthour"
    ensures sensors[2].topicId == "s0-" + id + "-watt"
  {
    [NewSensor("s0-" + id + "-watthour", Join([base, s0, "Watthour", id], "/")),
     NewSensor("s0-" + id + "-totalwatthour", Join([base, s0, "WatthourTotal", id], "/")),
     NewSensor("s0-" + id + "-watt", Join([base, s0, "Watt", id], "/"))]
  }

  /**
   * The keys of the sensors created for an s0 topic are themselves four-part
   * topics under the same base and s0 segments, for the same id.
   */
  lemma S0KeysSplitBack(topic: string)
    requires |Split(topic, '/')| == 4
    ensures var p := Split(topic, '/');
      forall n :: 0 <= n < 3 ==>
        Split(S0Sensors(p[0], p[1], p[3])[n].key, '/') ==
          [p[0], p[1], ["Watthour", "WatthourTotal", "Watt"][n], p[3]]
  {
    var p := Split(topic, '/');
    forall n | 0 <= n < 3
      ensures Split(S0Sensors(p[0], p[1], p[3])[n].key, '/') ==
        [p[0], p[1], ["Watthour", "WatthourTotal", "Watt"][n], p[3]]
    {
      S0KeySplitsBack(p[0], p[1], p[3], n);
    }
  }

  /** One sensor's key, for segments without a separator. */
  lemma S0KeySplitsBack(base: string, s0: string, id: string, n: nat)
    requires '/' !in base && '/' !in s0 && '/' !in id && n < 3
    ensures Split(S0Sensors(base, s0, id)[n].key, '/') == [base, s0, ["Watthour", "WatthourTotal", "Watt"][n], id]
  {
    var kind := ["Watthour", "WatthourTotal", "Watt"][n];
    var parts := [base, s0, kind, id];
    assert '/' !in kind by {
      if n == 0 { assert kind == ['W', 'a', 't', 't', 'h', 'o', 'u', 'r']; }
      else if n == 1 { assert kind == ['W', 'a', 't', 't', 'h', 'o', 'u', 'r', 'T', 'o', 't', 'a', 'l']; }
      else { assert kind == ['W', 'a', 't', 't']; }
    }
    assert S0Sensors(base, s0, id)[n].key == Join(parts, ['/']);
    SplitJoin(parts, '/');
  }

  /** `S0Detector`. */
  class S0Detector {
    var knownS0Sensors: seq<string>
    var nativeValue: Option<string>

    ghost predicate Valid()
      reads this
    {
      Sorted(knownS0Sensors)
    }

    constructor ()
      ensures Valid() && knownS0Sensors == [] && nativeValue.None?
    {
      knownS0Sensors := [];
      nativeValue := None;
    }

    /**
     * `message_received`: a topic that does not split into exactly four parts
     * raises `ValueError` on unpacking; a known id changes nothing; a new id
     * yields its three sensors and is inserted in the known list.
     */
    method MessageReceived(topic: string) returns (r: Result<seq<NewSensor>, Exception>)
      requires Valid()
      modifies this
      ensures Valid()
      ensures var p := Split(topic, '/');
        && (|p| != 4 ==> r == Failure(ValueError) && knownS0Sensors == old(knownS0Sensors) && nativeValue == old(nativeValue))
        && (|p| == 4 && p[3] in old(knownS0Sensors) ==>
              r == Success([]) && knownS0Sensors == old(knownS0Sensors) && nativeValue == old(nativeValue))
        && (|p| == 4 && p[3] !in old(knownS0Sensors) ==>
              && r == Success(S0Sensors(p[0], p[1], p[3]))
              && knownS0Sensors == Insert(old(knownS0Sensors), p[3])
              && nativeValue == Some(Join(knownS0Sensors, ", ")))
      ensures knownS0Sensors == (var p := Split(topic, '/'); if |p| == 4 then AddId(old(knownS0Sensors), p[3]) else old(knownS0Sensors))
    {
      var parts := Split(topic, '/');
      if |parts| != 4 {
        return Failure(ValueError);
      }
      var base, s0, deviceId := parts[0], parts[1], parts[3];
      if deviceId in knownS0Sensors {
        return Success([]);
      }
      var sensors := S0Sensors(base, s0, deviceId);
      InsertSorted(knownS0Sensors, deviceId);
      knownS0Sensors := Insert(knownS0Sensors, deviceId);
      nativeValue := Some(Join(knownS0Sensors, ", "));
      return Success(sensors);
    }
  }

  /** The sensor created for a new 1-wire id, with the reading it starts from. */
  datatype NewDallas = NewDallas(sensor: NewSensor, initial: real)

  /** `DallasListSensor`. */
  class DallasListSensor {
    var known1wire: seq<string>
    var nativeValue: Option<string>

    ghost predicate Valid()
      reads this
    {
      Sorted(known1wire)
    }

    constructor ()
      ensures Valid() && known1wire == [] && nativeValue.None?
    {
      known1wire := [];
      nativeValue := None;
    }

    /**
     * `message_received`: the id is the text after the last "/"; a known id
     * changes nothing; for a new id a payload `float()` rejects (`None` here)
     * raises before the id is recorded, otherwise the sensor is created with
     * the reading and the id inserted.
     */
    method MessageReceived(topic: string, payload: Option<real>) returns (r: Result<Option<NewDallas>, Exception>)
      requires Valid()
      modifies this
      ensures Valid()
      ensures var id := LastPart(topic, '/');
        && (id in old(known1wire) ==> r == Success(None) && known1wire == old(known1wire) && nativeValue == old(nativeValue))
        && (id !in old(known1wire) && payload.None? ==>
              r == Failure(ValueError) && known1wire == old(known1wire) && nativeValue == old(nativeValue))
        && (id !in old(known1wire) && payload.Some? ==>
              && r == Success(Some(NewDallas(NewSensor("1wire-" + id, topic), payload.value)))
              && known1wire == Insert(old(known1wire), id)
              && nativeValue == Some(Join(known1wire, ", ")))
    {
      var deviceId := LastPart(topic, '/');
      if deviceId in known1wire {
        return Success(None);
      }
      if payload.None? {
        return Failure(ValueError);
      }
      var sensor := NewDallas(NewSensor("1wire-" + deviceId, topic), payload.value);
      InsertSorted(known1wire, deviceId);
      known1wire := Insert(known1wire, deviceId);
      nativeValue := Some(Join(known1wire, ", "));
      return Success(Some(sensor));
    }
  }
}
