/**
 * The slot-binding half of TMVATools. bookVars gives every harvested training
 * and spectator name a slot in a caller-owned name-to-value map, set to the
 * sentinel -999, and registers each name with the TMVA reader together with its
 * slot, training names first, both in harvest order, before booking the
 * method. The scoring calls overwrite every training slot with the event's value
 * for that name before the reader evaluates.
 *
 * The reader is modelled by the sequence of calls made on it; the address
 * &tmap[var] it keeps is the pair (map object, name). Slot contents are reals
 * on which nothing is computed. VarSet::getValue is the parameter `getValue`,
 * and the reader's evaluation is the parameter `evaluate`, applied to the
 * method name and the training slots it reads.
 */
module TmvaBinding {
  import opened Wrappers
  import opened Xml
  import opened Harvest
  import opened TmvaNames

  /** The value every slot holds between booking and the first scoring call. */
  const Sentinel: real := -999.0

  const ReaderOptions := "!Color:!Silent"

  /** A std::map from variable name to its slot, owned by the caller. */
  class SlotMap {
    var slots: map<string, real>

    constructor ()
      ensures slots == map[]
    {
      slots := map[];
    }

    /** `m[key] = v`: creates the slot when missing. */
    method Put(key: string, v: real)
      modifies this
      ensures slots == old(slots)[key := v]
    {
      slots := slots[key := v];
    }
  }

  datatype Role = Training | Spectator

  datatype ReaderCall =
    | Registered(role: Role, name: string, slots: SlotMap)  // AddVariable / AddSpectator(name, &slots[name])
    | Booked(methodName: string, weightfile: string)         // BookMVA(methodName, weightfile)

  /** The TMVA reader, seen through the calls made on it. */
  class Reader {
    const options: string
    var calls: seq<ReaderCall>

    constructor (options: string)
      ensures this.options == options && calls == []
    {
      this.options := options;
      calls := [];
    }

    method AddVariable(name: string, slots: SlotMap)
      modifies this
      ensures calls == old(calls) + [Registered(Training, name, slots)]
    {
      calls := calls + [Registered(Training, name, slots)];
    }

    method AddSpectator(name: string, slots: SlotMap)
      modifies this
      ensures calls == old(calls) + [Registered(Spectator, name, slots)]
    {
      calls := calls + [Registered(Spectator, name, slots)];
    }

    method BookMVA(methodName: string, weightfile: string)
      modifies this
      ensures calls == old(calls) + [Booked(methodName, weightfile)]
    {
      calls := calls + [Booked(methodName, weightfile)];
    }
  }

  /**
   * `m` after `m[n] = -999` for each n of `names` in turn: the names become keys
   * holding the sentinel, every other key keeps its value.
   */
  function WithSentinel(m: map<string, real>, names: seq<string>): map<string, real>
  {
    if names == [] then m
    else WithSentinel(m, names[..|names| - 1])[names[|names| - 1] := Sentinel]
  }

  /** The names become keys holding the sentinel; every other key keeps its value; no key is dropped. */
  lemma {:induction false} WithSentinelSlots(m: map<string, real>, names: seq<string>)
    ensures WithSentinel(m, names).Keys == m.Keys + set n | n in names
    ensures forall k :: k in WithSentinel(m, names) ==> WithSentinel(m, names)[k] == if k in names then Sentinel else m[k]
    decreases |names|
  {
    if names != [] {
      var init, last := names[..|names| - 1], names[|names| - 1];
      WithSentinelSlots(m, init);
      assert names == init + [last];
      assert forall n :: n in names <==> n in init || n == last;
    }
  }

  /** Booking in two rounds into one map is booking the concatenation. */
  lemma {:induction false} WithSentinelAppend(m: map<string, real>, a: seq<string>, b: seq<string>)
    ensures WithSentinel(WithSentinel(m, a), b) == WithSentinel(m, a + b)
    decreases |b|
  {
    if b == [] {
      assert a + b == a;
    } else {
      var init := b[..|b| - 1];
      assert (a + b)[..|a + b| - 1] == a + init;
      assert (a + b)[|a + b| - 1] == b[|b| - 1];
      WithSentinelAppend(m, a, init);
    }
  }

  /** The registration calls for `names` in order, each bound to its slot in `slots`. */
  function Registrations(role: Role, names: seq<string>, slots: SlotMap): seq<ReaderCall>
  {
    if names == [] then []
    else Registrations(role, names[..|names| - 1], slots) + [Registered(role, names[|names| - 1], slots)]
  }

  /** The i-th registration is that of the i-th name, bound to its slot in `slots`. */
  lemma {:induction false} RegistrationsInOrder(role: Role, names: seq<string>, slots: SlotMap)
    ensures |Registrations(role, names, slots)| == |names|
    ensures forall i :: 0 <= i < |names| ==> Registrations(role, names, slots)[i] == Registered(role, names[i], slots)
    decreases |names|
  {
    if names != [] {
      RegistrationsInOrder(role, names[..|names| - 1], slots);
    }
  }

  /**
   * The call log bookVars leaves: every training registration, then every
   * spectator registration, then the booking, which comes after all of them.
   */
  lemma BookingLog(tvars: seq<string>, tmap: SlotMap, svars: seq<string>, smap: SlotMap, methodName: string, weightfile: string)
    ensures var calls := Registrations(Training, tvars, tmap) + Registrations(Spectator, svars, smap) + [Booked(methodName, weightfile)];
            && |calls| == |tvars| + |svars| + 1
            && (forall i :: 0 <= i < |tvars| ==> calls[i] == Registered(Training, tvars[i], tmap))
            && (forall j :: 0 <= j < |svars| ==> calls[|tvars| + j] == Registered(Spectator, svars[j], smap))
            && (forall i :: 0 <= i < |calls| - 1 ==> calls[i].Registered?)
            && calls[|calls| - 1] == Booked(methodName, weightfile)
  {
    RegistrationsInOrder(Training, tvars, tmap);
    RegistrationsInOrder(Spectator, svars, smap);
    var calls := Registrations(Training, tvars, tmap) + Registrations(Spectator, svars, smap) + [Booked(methodName, weightfile)];
    forall i | 0 <= i < |calls| - 1 ensures calls[i].Registered? {
      if i >= |tvars| {
        assert calls[i] == Registrations(Spectator, svars, smap)[i - |tvars|];
      }
    }
  }

  /**
   * One of the two loops of bookVars: for each name in turn, `slots[name] = -999`
   * and registration of the name, with its slot, in the given role.
   */
  method BindNames(reader: Reader, role: Role, names: seq<string>, slots: SlotMap)
    modifies reader, slots
    ensures reader.calls == old(reader.calls) + Registrations(role, names, slots)
    ensures slots.slots == WithSentinel(old(slots.slots), names)
  {
    ghost var calls0, slots0 := reader.calls, slots.slots;
    var i := 0;
    while i < |names|
      invariant 0 <= i <= |names|
      invariant reader.calls == calls0 + Registrations(role, names[..i], slots)
      invariant slots.slots == WithSentinel(slots0, names[..i])
    {
      var v := names[i];
      ghost var done := Registrations(role, names[..i], slots);
      assert names[..i + 1][..i] == names[..i];
      assert Registrations(role, names[..i + 1], slots) == done + [Registered(role, v, slots)];
      assert WithSentinel(slots0, names[..i + 1]) == WithSentinel(slots0, names[..i])[v := Sentinel];
      slots.Put(v, Sentinel);
      if role == Training {
        reader.AddVariable(v, slots);
      } else {
        reader.AddSpectator(v, slots);
      }
      assert reader.calls == calls0 + done + [Registered(role, v, slots)];
      i := i + 1;
    }
    assert names[..i] == names;
  }

  /**
   * Harvests the weight file's training and spectator names, gives each a
   * sentinel slot in tmap or smap, registers each with a new reader in harvest
   * order (training first), then books the method. Should the caller pass one
   * map for both, it ends with every name of both lists.
   */
  method BookVars(parse: string -> Option<Element>, methodName: string, weightfile: string, tmap: SlotMap, smap: SlotMap)
    returns (reader: Reader)
    modifies tmap, smap
    ensures fresh(reader) && reader.options == ReaderOptions
    ensures reader.calls
         == Registrations(Training, TrainingNames(parse(weightfile)), tmap)
          + Registrations(Spectator, SpectatorNames(parse(weightfile)), smap)
          + [Booked(methodName, weightfile)]
    ensures tmap != smap ==> tmap.slots == WithSentinel(old(tmap.slots), TrainingNames(parse(weightfile)))
    ensures tmap != smap ==> smap.slots == WithSentinel(old(smap.slots), SpectatorNames(parse(weightfile)))
    ensures tmap == smap ==>
              tmap.slots == WithSentinel(old(tmap.slots), TrainingNames(parse(weightfile)) + SpectatorNames(parse(weightfile)))
    ensures forall v :: v in TrainingNames(parse(weightfile)) ==> v in tmap.slots && tmap.slots[v] == Sentinel
    ensures forall v :: v in SpectatorNames(parse(weightfile)) ==> v in smap.slots && smap.slots[v] == Sentinel
  {
    var tvars := new NameVector();
    var svars := new NameVector();
    GetVarNames(parse, weightfile, tvars, svars);
    ghost var tnames, snames := tvars.elems, svars.elems;
    assert tnames == TrainingNames(parse(weightfile)) && snames == SpectatorNames(parse(weightfile));

    ghost var trainingCalls := Registrations(Training, tnames, tmap);
    ghost var spectatorCalls := Registrations(Spectator, snames, smap);

    reader := new Reader(ReaderOptions);
    BindNames(reader, Training, tvars.elems, tmap);
    assert reader.calls == trainingCalls;
    ghost var afterTraining := tmap.slots;
    BindNames(reader, Spectator, svars.elems, smap);
    assert reader.calls == trainingCalls + spectatorCalls;
    if tmap == smap {
      WithSentinelAppend(old(tmap.slots), tnames, snames);
      WithSentinelSlots(old(tmap.slots), tnames + snames);
      assert forall v :: v in tnames || v in snames ==> v in tnames + snames;
    } else {
      assert tmap.slots == afterTraining;
      WithSentinelSlots(old(tmap.slots), tnames);
      WithSentinelSlots(old(smap.slots), snames);
    }
    reader.BookMVA(methodName, weightfile);
  }

  /** The training slots after an update: same keys, each holding the event's value for its name. */
  function Refreshed(m: map<string, real>, getValue: string -> real): map<string, real>
  {
    map k | k in m :: getValue(k)
  }

  /** Overwrites every slot of tmap with the event's value for its name; creates and removes none. */
  method RefreshSlots(tmap: SlotMap, getValue: string -> real)
    modifies tmap
    ensures tmap.slots == Refreshed(old(tmap.slots), getValue)
  {
    var pending := tmap.slots.Keys;
    while pending != {}
      invariant pending <= tmap.slots.Keys == old(tmap.slots).Keys
      invariant forall k :: k in tmap.slots ==> tmap.slots[k] == if k in pending then old(tmap.slots)[k] else getValue(k)
      decreases pending
    {
      var k :| k in pending;
      tmap.Put(k, getValue(k));
      pending := pending - {k};
    }
  }

  /** Refreshes the training slots, then returns the reader's single-class output for methodName. */
  method GetClassifierScore(methodName: string, tmap: SlotMap, getValue: string -> real,
                            evaluate: (string, map<string, real>) -> real)
    returns (score: real)
    modifies tmap
    ensures tmap.slots.Keys == old(tmap.slots).Keys
    ensures forall k :: k in tmap.slots ==> tmap.slots[k] == getValue(k)
    ensures score == evaluate(methodName, Refreshed(old(tmap.slots), getValue))
  {
    RefreshSlots(tmap, getValue);
    score := evaluate(methodName, tmap.slots);
  }

  /** Refreshes the training slots, then returns the reader's per-class outputs for methodName. */
  method GetMulticlassScores(methodName: string, tmap: SlotMap, getValue: string -> real,
                             evaluate: (string, map<string, real>) -> seq<real>)
    returns (scores: seq<real>)
    modifies tmap
    ensures tmap.slots.Keys == old(tmap.slots).Keys
    ensures forall k :: k in tmap.slots ==> tmap.slots[k] == getValue(k)
    ensures scores == evaluate(methodName, Refreshed(old(tmap.slots), getValue))
  {
    RefreshSlots(tmap, getValue);
    scores := evaluate(methodName, tmap.slots);
  }

  /**
   * Booking then scoring: the training slots are exactly the harvested names,
   * each holding the event's value; a slot that was in the map before booking
   * is refreshed too.
   */
  lemma ScoredAfterBooking(m: map<string, real>, tvars: seq<string>, getValue: string -> real)
    ensures Refreshed(WithSentinel(m, tvars), getValue).Keys == m.Keys + set v | v in tvars
    ensures forall v :: v in tvars ==> Refreshed(WithSentinel(m, tvars), getValue)[v] == getValue(v)
  {
    WithSentinelSlots(m, tvars);
  }

  /** Training variables pt and eta, booked into an empty map, then given an event's values. */
  lemma BindingExample(getValue: string -> real)
    requires getValue("pt") == 42.0 && getValue("eta") == -1.5
    ensures WithSentinel(map[], ["pt", "eta"]) == map["pt" := Sentinel, "eta" := Sentinel]
    ensures Refreshed(WithSentinel(map[], ["pt", "eta"]), getValue) == map["pt" := 42.0, "eta" := -1.5]
  {
  }
}
