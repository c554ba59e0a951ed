/**
  The filter list of src/utils/populateInstrumentsUtils.js: from the `instruments` response of
  the observation portal, the schedulable filters of the 0.4 m telescopes' instruments, each as
  `{ name, code }`.

  The response is given as the sequence `Object.values(response)` yields (the instruments in the
  order their keys were sent), or as `NoResponse` when it is falsy.
 */
module PopulateInstruments {
  import opened Common
  import opened Json

  datatype Response = NoResponse | Instruments(values: seq<Json>)

  /** `instrument.optical_elements.filters`, undefined when either property is missing. */
  function FiltersProperty(instrument: Json): Option<Json>
  {
    match Get(instrument, "optical_elements")
    case Some(oe) => Get(oe, "filters")
    case None => None
  }

  /** Line 15: the instrument is of class '0m4' and has a (truthy) filters property. */
  predicate Contributes(instrument: Json)
  {
    && Get(instrument, "class") == Some(JStr("0m4"))
    && FiltersProperty(instrument).Some? && Truthy(FiltersProperty(instrument).value)
  }

  /**
    What line 15 reads without a TypeError: the instrument is not null, a '0m4' instrument has
    `optical_elements`, not null, and truthy filters are an array of filters that are not null.
   */
  predicate WellFormedInstrument(instrument: Json)
  {
    && instrument != JNull
    && (Get(instrument, "class") == Some(JStr("0m4")) ==>
          Get(instrument, "optical_elements").Some? && Get(instrument, "optical_elements").value != JNull)
    && (Contributes(instrument) ==>
          FiltersProperty(instrument).value.JArr?
          && forall j :: 0 <= j < |FiltersProperty(instrument).value.items| ==> FiltersProperty(instrument).value.items[j] != JNull)
  }

  /** `filter.schedulable` is truthy. */
  predicate IsSchedulable(filter: Json)
  {
    Get(filter, "schedulable").Some? && Truthy(Get(filter, "schedulable").value)
  }

  /** `{ name: filter.name, code: filter.code }` */
  function Project(filter: Json): (o: JsObject)
    ensures o.Keys == {"name", "code"}
    ensures Prop(o, "name") == Get(filter, "name") && Prop(o, "code") == Get(filter, "code")
  {
    map["name" := Get(filter, "name"), "code" := Get(filter, "code")]
  }

  /** `filters.filter(filter => filter.schedulable).map(...)` (lines 16-18). */
  function SchedulableFilters(filters: seq<Json>): (r: seq<JsObject>)
    ensures |r| <= |filters|
    ensures forall j :: 0 <= j < |r| ==> r[j].Keys == {"name", "code"}
  {
    if filters == [] then [] else SchedulableFilters(filters[..|filters| - 1]) + Kept(filters[|filters| - 1])
  }

  /** What one filter adds: its `{ name, code }` when it is schedulable. */
  function Kept(filter: Json): seq<JsObject>
  {
    if IsSchedulable(filter) then [Project(filter)] else []
  }

  /** What one instrument adds to the list. */
  function Contribution(instrument: Json): (r: seq<JsObject>)
    requires WellFormedInstrument(instrument)
    ensures !Contributes(instrument) ==> r == []
    ensures |r| <= (if Contributes(instrument) then |FiltersProperty(instrument).value.items| else 0)
    ensures forall j :: 0 <= j < |r| ==> r[j].Keys == {"name", "code"}
  {
    if Contributes(instrument) then SchedulableFilters(FiltersProperty(instrument).value.items) else []
  }

  predicate AllWellFormed(instruments: seq<Json>)
  {
    forall i :: 0 <= i < |instruments| ==> WellFormedInstrument(instruments[i])
  }

  /** The contributions of the instruments, in instrument order. */
  function Contributions(instruments: seq<Json>): seq<JsObject>
    requires AllWellFormed(instruments)
  {
    if instruments == [] then []
    else Contributions(instruments[..|instruments| - 1]) + Contribution(instruments[|instruments| - 1])
  }

  /** The list `getFilterList` resolves with; a falsy response gives the empty list (lines 11-13). */
  function FilterList(response: Response): (r: seq<JsObject>)
    requires response.Instruments? ==> AllWellFormed(response.values)
    ensures response.NoResponse? ==> r == []
    ensures response.Instruments? ==> r == Contributions(response.values)
  {
    if response.NoResponse? then [] else Contributions(response.values)
  }

  /** A filter is kept exactly when it is schedulable, and then as its `{ name, code }`. */
  lemma {:induction false} SchedulableMembers(filters: seq<Json>, o: JsObject)
    ensures o in SchedulableFilters(filters) <==> exists j :: 0 <= j < |filters| && IsSchedulable(filters[j]) && o == Project(filters[j])
  {
    if filters != [] {
      var n := |filters| - 1;
      SchedulableMembers(filters[..n], o);
      assert forall j :: 0 <= j < n ==> filters[..n][j] == filters[j];
      if o in SchedulableFilters(filters) && o !in SchedulableFilters(filters[..n]) {
        assert IsSchedulable(filters[n]) && o == Project(filters[n]);
      }
    }
  }

  lemma SchedulableSnoc(filters: seq<Json>, filter: Json)
    ensures SchedulableFilters(filters + [filter]) == SchedulableFilters(filters) + Kept(filter)
  {
    var zs := filters + [filter];
    assert zs[..|zs| - 1] == filters;
  }

  /** Filter order is kept: the filters of a concatenation are those of each part, in turn. */
  lemma {:induction false} SchedulableOfAppend(xs: seq<Json>, ys: seq<Json>)
    ensures SchedulableFilters(xs + ys) == SchedulableFilters(xs) + SchedulableFilters(ys)
    decreases |ys|
  {
    if ys == [] {
      assert xs + ys == xs;
    } else {
      var init, last := ys[..|ys| - 1], ys[|ys| - 1];
      assert ys == init + [last];
      assert xs + ys == (xs + init) + [last];
      SchedulableOfAppend(xs, init);
      SchedulableSnoc(xs + init, last);
      SchedulableSnoc(init, last);
      ConcatAssociative(SchedulableFilters(xs), SchedulableFilters(init), Kept(last));
    }
  }

  lemma ContributionsSnoc(instruments: seq<Json>, instrument: Json)
    requires AllWellFormed(instruments) && WellFormedInstrument(instrument)
    ensures AllWellFormed(instruments + [instrument])
    ensures Contributions(instruments + [instrument]) == Contributions(instruments) + Contribution(instrument)
  {
    var zs := instruments + [instrument];
    assert forall i :: 0 <= i < |instruments| ==> zs[i] == instruments[i];
    assert zs[..|zs| - 1] == instruments;
  }

  lemma ContributionsStep(instruments: seq<Json>, i: nat)
    requires AllWellFormed(instruments) && i < |instruments|
    ensures AllWellFormed(instruments[..i + 1])
    ensures Contributions(instruments[..i + 1]) == Contributions(instruments[..i]) + Contribution(instruments[i])
  {
    assert AllWellFormed(instruments[..i]) by {
      forall j | 0 <= j < i ensures instruments[..i][j] == instruments[j] { }
    }
    PrefixExtended(instruments, i);
    ContributionsSnoc(instruments[..i], instruments[i]);
  }

  /** Instrument order is kept: the list for a concatenation is the list for each part, in turn. */
  lemma {:induction false} ContributionsOfAppend(xs: seq<Json>, ys: seq<Json>)
    requires AllWellFormed(xs) && AllWellFormed(ys)
    ensures AllWellFormed(xs + ys)
    ensures Contributions(xs + ys) == Contributions(xs) + Contributions(ys)
    decreases |ys|
  {
    if ys == [] {
      assert xs + ys == xs;
    } else {
      var init, last := ys[..|ys| - 1], ys[|ys| - 1];
      assert ys == init + [last];
      assert xs + ys == (xs + init) + [last];
      assert AllWellFormed(init) by {
        assert forall i :: 0 <= i < |init| ==> init[i] == ys[i];
      }
      ContributionsOfAppend(xs, init);
      ContributionsSnoc(xs + init, last);
      ContributionsSnoc(init, last);
      ConcatAssociative(Contributions(xs), Contributions(init), Contribution(last));
    }
  }

  /** `o` is one of the schedulable filters of a contributing instrument. */
  predicate FromInstrument(instrument: Json, o: JsObject)
  {
    Contributes(instrument) && FiltersProperty(instrument).value.JArr?
    && o in SchedulableFilters(FiltersProperty(instrument).value.items)
  }

  /** An entry of the list comes from a contributing instrument, as one of its schedulable filters. */
  lemma {:induction false} FilterListMembers(instruments: seq<Json>, o: JsObject)
    requires AllWellFormed(instruments)
    ensures o in Contributions(instruments) <==> exists i :: 0 <= i < |instruments| && FromInstrument(instruments[i], o)
  {
    if instruments != [] {
      var n := |instruments| - 1;
      var prefix, last := instruments[..n], instruments[n];
      assert instruments == prefix + [last];
      assert AllWellFormed(prefix) by {
        assert forall i :: 0 <= i < n ==> prefix[i] == instruments[i];
      }
      ContributionsSnoc(prefix, last);
      FilterListMembers(prefix, o);
      assert o in Contribution(last) <==> FromInstrument(last, o);
      if o in Contributions(instruments) {
        if o in Contributions(prefix) {
          var i :| 0 <= i < |prefix| && FromInstrument(prefix[i], o);
          assert instruments[i] == prefix[i];
        } else {
          assert FromInstrument(instruments[n], o);
        }
      } else {
        forall i | 0 <= i < |instruments|
          ensures !FromInstrument(instruments[i], o)
        {
          if i < n {
            assert instruments[i] == prefix[i];
          }
        }
      }
    }
  }

  /** Instruments of another class, or without filters, add nothing. */
  lemma OtherInstrumentsIgnored(instruments: seq<Json>, instrument: Json)
    requires AllWellFormed(instruments) && WellFormedInstrument(instrument) && !Contributes(instrument)
    ensures AllWellFormed(instruments + [instrument])
    ensures Contributions(instruments + [instrument]) == Contributions(instruments)
  {
    ContributionsSnoc(instruments, instrument);
  }

  /** With no schedulable filter anywhere the list is empty. */
  lemma NothingSchedulable(instruments: seq<Json>)
    requires AllWellFormed(instruments)
    requires forall i :: 0 <= i < |instruments| && Contributes(instruments[i]) ==>
               forall j :: 0 <= j < |FiltersProperty(instruments[i]).value.items| ==> !IsSchedulable(FiltersProperty(instruments[i]).value.items[j])
    ensures Contributions(instruments) == []
  {
    if Contributions(instruments) != [] {
      var o := Contributions(instruments)[0];
      FilterListMembers(instruments, o);
      var i :| 0 <= i < |instruments| && FromInstrument(instruments[i], o);
      SchedulableMembers(FiltersProperty(instruments[i]).value.items, o);
      assert false;
    }
  }

  /**
    `getFilterList()` after the fetch: the `forEach` over the instruments, pushing the
    schedulable filters of each contributing one.
   */
  method GetFilterList(response: Response) returns (filterList: seq<JsObject>)
    requires response.Instruments? ==> AllWellFormed(response.values)
    ensures filterList == FilterList(response)
  {
    filterList := [];
    if response.NoResponse? {
      return;
    }
    var instruments := response.values;
    var i := 0;
    while i < |instruments|
      invariant 0 <= i <= |instruments|
      invariant AllWellFormed(instruments[..i])
      invariant filterList == Contributions(instruments[..i])
    {
      var instrument := instruments[i];
      ContributionsStep(instruments, i);
      if Get(instrument, "class") == Some(JStr("0m4")) && FiltersProperty(instrument).Some? && Truthy(FiltersProperty(instrument).value) {
        var schedulableFilters := SchedulableFilters(FiltersProperty(instrument).value.items);
        assert Contribution(instrument) == schedulableFilters;
        filterList := filterList + schedulableFilters;
      } else {
        assert Contribution(instrument) == [];
      }
      i := i + 1;
    }
    assert instruments[..i] == instruments;
  }
}
