/**
 * Chaos controls: the set of endpoints forced to fail, kept in a settings
 * store as a sorted comma-joined string, and an injected latency in
 * milliseconds kept as a decimal string.
 *
 * The settings store itself is a string-to-string map. How it reads a list
 * or an integer back out of a stored string is not part of this model, so
 * those two readers are parameters of the controls.
 */
module Chaos {
  import opened Wrappers
  import opened Text

  const FailKey := "chaos_fail_endpoints"
  const LatencyKey := "chaos_latency_ms"

  /** `xs` with `x` added, for a strictly sorted `xs`. */
  function Insert(x: string, xs: seq<string>): (r: seq<string>)
    requires StrictlySorted(xs)
    ensures StrictlySorted(r)
    ensures Elements(r) == Elements(xs) + {x}
  {
    if xs == [] then [x]
    else if x == xs[0] then
      assert xs == [xs[0]] + xs[1..];
      xs
    else if Below(x, xs[0]) then
      var r := [x] + xs;
      assert StrictlySorted(r) by {
        forall i, j | 0 <= i < j < |r| ensures Below(r[i], r[j]) {
          if i == 0 && j > 1 { BelowTransitive(x, xs[0], xs[j - 1]); }
        }
      }
      r
    else
      BelowTotal(x, xs[0]);
      var tail := Insert(x, xs[1..]);
      var r := [xs[0]] + tail;
      ElementsConcat([xs[0]], tail);
      assert Elements(xs) == {xs[0]} + Elements(xs[1..]) by {
        assert xs == [xs[0]] + xs[1..];
      }
      assert StrictlySorted(r) by {
        forall j | 0 < j < |r| ensures Below(r[0], r[j]) {
          assert r[j] in Elements(tail);
        }
      }
      r
  }

  /** Python's `sorted(set(xs))`. */
  function SortedSet(xs: seq<string>): (r: seq<string>)
    ensures StrictlySorted(r)
    ensures Elements(r) == Elements(xs)
  {
    if xs == [] then []
    else
      var init := xs[..|xs| - 1];
      assert xs == init + [xs[|xs| - 1]];
      assert Elements(xs) == Elements(init) + {xs[|xs| - 1]};
      Insert(xs[|xs| - 1], SortedSet(init))
  }

  /** `xs` without any occurrence of `name`. */
  function Without(xs: seq<string>, name: string): (r: seq<string>)
    ensures Elements(r) == Elements(xs) - {name}
  {
    if xs == [] then []
    else
      assert Elements(xs) == {xs[0]} + Elements(xs[1..]) by {
        assert xs == [xs[0]] + xs[1..];
      }
      var head := if xs[0] == name then [] else [xs[0]];
      ElementsConcat(head, Without(xs[1..], name));
      head + Without(xs[1..], name)
  }

  /**
   * Failing an endpoint twice stores and returns what failing it once did,
   * provided the store reads back (as a set) the list it was given.
   */
  lemma FailTwiceSame(xs: seq<string>, readBack: seq<string>, name: string)
    requires Elements(readBack) == Elements(SortedSet(xs + [name]))
    ensures SortedSet(readBack + [name]) == SortedSet(xs + [name])
  {
    var once := SortedSet(xs + [name]);
    assert name in Elements(once) by {
      assert (xs + [name])[|xs|] == name;
    }
    assert Elements(readBack + [name]) == Elements(readBack) + {name};
    SortedUnique(SortedSet(readBack + [name]), once);
  }

  /**
   * Idempotence of failing an endpoint, for a store that reads a list back
   * by splitting it at commas: with comma-free names, the second call stores
   * and returns what the first did.
   */
  lemma FailIdempotentWhenSplit(xs: seq<string>, name: string)
    requires CommaFree(xs) && ',' !in name
    ensures var once := SortedSet(xs + [name]);
            SortedSet(Split(Join(once)) + [name]) == once
  {
    var once := SortedSet(xs + [name]);
    assert name in Elements(once) by {
      assert (xs + [name])[|xs|] == name;
    }
    assert |once| >= 1;
    assert CommaFree(once) by {
      forall i | 0 <= i < |once| ensures ',' !in once[i] {
        assert once[i] in Elements(xs + [name]);
        var k :| 0 <= k < |xs + [name]| && (xs + [name])[k] == once[i];
      }
    }
    SplitJoin(once);
    FailTwiceSame(xs, once, name);
  }

  /** Recovering an endpoint that is not failed leaves the list as it is read. */
  lemma RecoverAbsentUnchanged(xs: seq<string>, name: string)
    requires name !in xs
    requires StrictlySorted(xs)
    ensures SortedSet(Without(xs, name)) == xs
  {
    SortedUnique(SortedSet(Without(xs, name)), xs);
  }

  /**
   * Recovering after failing the same new name gives back the earlier list,
   * provided the store reads back (as a set) the list that failing stored.
   */
  lemma FailThenRecover(xs: seq<string>, readBack: seq<string>, name: string)
    requires name !in xs
    requires Elements(readBack) == Elements(SortedSet(xs + [name]))
    ensures SortedSet(Without(readBack, name)) == SortedSet(xs)
  {
    assert Elements(xs + [name]) == Elements(xs) + {name};
    SortedUnique(SortedSet(Without(readBack, name)), SortedSet(xs));
  }

  /**
   * The same for a store that reads a list back by splitting it at commas:
   * with comma-free names, recovering a newly failed endpoint gives back the
   * earlier list.
   */
  lemma FailThenRecoverWhenSplit(xs: seq<string>, name: string)
    requires CommaFree(xs) && ',' !in name && name !in xs
    ensures SortedSet(Without(Split(Join(SortedSet(xs + [name]))), name)) == SortedSet(xs)
  {
    var once := SortedSet(xs + [name]);
    assert name in Elements(once) by {
      assert (xs + [name])[|xs|] == name;
    }
    assert CommaFree(once) by {
      forall i | 0 <= i < |once| ensures ',' !in once[i] {
        assert once[i] in Elements(xs + [name]);
        var k :| 0 <= k < |xs + [name]| && (xs + [name])[k] == once[i];
      }
    }
    SplitJoin(once);
    FailThenRecover(xs, once, name);
  }

  /** A strictly sorted list is its own `sorted(set(...))`. */
  lemma SortedSetOfSorted(xs: seq<string>)
    requires StrictlySorted(xs)
    ensures SortedSet(xs) == xs
  {
    SortedUnique(SortedSet(xs), xs);
  }

  /**
   * Without comma-freedom the round trip fails: a name with a comma comes
   * back from a splitting store as two names, and recovering it leaves them.
   */
  lemma RecoverCommaNameLeavesPieces()
    ensures var once := SortedSet(["a"] + ["c,d"]);
            SortedSet(Without(Split(Join(once)), "c,d")) == ["a", "c", "d"]
  {
    assert ["a"] + ["c,d"] == ["a", "c,d"];
    assert Below("a", "c,d");
    SortedSetOfSorted(["a", "c,d"]);
    SplitCommaName();
    assert Without(["a", "c", "d"], "c,d") == ["a", "c", "d"] by {
      assert "a" != "c,d" && "c" != "c,d" && "d" != "c,d";
    }
    assert Below("a", "c") && Below("c", "d");
    SortedSetOfSorted(["a", "c", "d"]);
  }

  lemma SplitCommaName()
    ensures Split(Join(["a", "c,d"])) == ["a", "c", "d"]
  {
    assert Join(["a", "c,d"]) == "a,c,d";
    assert Join(["a", "c", "d"]) == "a,c,d";
    SplitJoin(["a", "c", "d"]);
  }

  class ChaosControls {
    /** The settings store: setting key to stored string. */
    var settings: map<string, string>
    /** How the store reads a comma-separated list setting (missing key: `None`). */
    const readList: Option<string> -> seq<string>
    /** How the store reads an integer setting (`None` for missing or unreadable). */
    const readInt: Option<string> -> Option<int>

    constructor (settings: map<string, string>, readList: Option<string> -> seq<string>,
                 readInt: Option<string> -> Option<int>)
      ensures this.settings == settings
      ensures this.readList == readList && this.readInt == readInt
    {
      this.settings := settings;
      this.readList := readList;
      this.readInt := readInt;
    }

    function Stored(key: string): Option<string>
      reads this
    {
      if key in settings then Some(settings[key]) else None
    }

    /** The failed endpoints as the store reads them. */
    function FailedList(): seq<string>
      reads this
    {
      readList(Stored(FailKey))
    }

    method GetFailedEndpoints() returns (r: seq<string>)
      ensures r == readList(Stored(FailKey))
    {
      r := FailedList();
    }

    method FailEndpoint(name: string) returns (r: seq<string>)
      modifies this
      ensures StrictlySorted(r)
      ensures Elements(r) == Elements(old(FailedList())) + {name}
      ensures settings == old(settings)[FailKey := Join(r)]
    {
      var current := GetFailedEndpoints();
      assert Elements(current + [name]) == Elements(current) + {name};
      r := SortedSet(current + [name]);
      settings := settings[FailKey := Join(r)];
    }

    method RecoverEndpoint(name: string) returns (r: seq<string>)
      modifies this
      ensures StrictlySorted(r)
      ensures Elements(r) == Elements(old(FailedList())) - {name}
      ensures settings == old(settings)[FailKey := Join(r)]
    {
      var current := GetFailedEndpoints();
      r := SortedSet(Without(current, name));
      settings := settings[FailKey := Join(r)];
    }

    method ClearFailures() returns (r: seq<string>)
      modifies this
      ensures r == []
      ensures settings == old(settings)[FailKey := ""]
    {
      settings := settings[FailKey := ""];
      r := [];
    }

    /** The injected latency in milliseconds; a missing, unreadable or zero setting reads as 0. */
    method GetLatency() returns (ms: int)
      ensures readInt(Stored(LatencyKey)).None? ==> ms == 0
      ensures readInt(Stored(LatencyKey)).Some? ==> ms == readInt(Stored(LatencyKey)).value
    {
      var v := readInt(Stored(LatencyKey));
      if v.Some? && v.value != 0 {
        ms := v.value;
      } else {
        ms := 0;
      }
    }

    method SetLatency(ms: int) returns (r: int)
      modifies this
      ensures r == ms
      ensures settings == old(settings)[LatencyKey := DecimalString(ms)]
      ensures ParseDecimal(settings[LatencyKey]) == Some(ms)
    {
      settings := settings[LatencyKey := DecimalString(ms)];
      DecimalRoundTrip(ms);
      r := ms;
    }
  }
}
