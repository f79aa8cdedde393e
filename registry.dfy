/** The address registry (`addressMap`) and what it means for it to agree with the map:
    every layer the controller tracks belongs to exactly one registry entry (or is the
    layer held by the single slot beside the registry), no two entries share a layer, and each entry's marker shows the
    label its record determines. The lemmas say that each kind of registry update the
    controller performs keeps that agreement. */
module Registry {
  import opened JsValues
  import opened Leaflet
  import opened Labels

  /** One entry of `addressMap`: `{ lat, lon, radius, circle, marker, fullAddress }`. */
  datatype Record = Record(lat: Num, lon: Num, radius: Option<int>, circle: Option<Handle>,
                           marker: Handle, fullAddress: Option<string>)

  /** The layers a record owns. */
  function Handles(r: Record): set<Handle>
  {
    {r.marker} + ToSet(r.circle)
  }

  /** The layers owned by the record under `k`, if there is one. */
  function HandlesAt(m: map<string, Record>, k: string): (hs: set<Handle>)
    ensures k !in m ==> hs == {}
    ensures k in m ==> hs == Handles(m[k])
  {
    if k in m then Handles(m[k]) else {}
  }

  /** All layers owned by the entries of a registry, collected entry by entry. */
  ghost function Tracked(m: map<string, Record>): set<Handle>
    decreases m.Keys
  {
    if m == map[] then {}
    else
      var a :| a in m;
      Handles(m[a]) + Tracked(m - {a})
  }

  /** No two entries own the same layer. */
  ghost predicate PairwiseDisjoint(m: map<string, Record>)
  {
    forall a, b :: a in m && b in m && a != b ==> Handles(m[a]) !! Handles(m[b])
  }

  /** `PairwiseDisjoint`, stated entry by entry (see `DisjointIff`); the recursive form is what
      `Consistent` uses, so that the verifier opens it only one entry at a time. */
  ghost predicate Disjoint(m: map<string, Record>)
    decreases m.Keys
  {
    if m == map[] then true
    else
      var a :| a in m;
      Handles(m[a]) !! Tracked(m - {a}) && Disjoint(m - {a})
  }

  /** Every live handle was handed out before `next`. */
  ghost predicate Fresh(layers: map<Handle, Layer>, next: Handle)
  {
    forall h :: h in layers ==> h < next
  }

  /** The three revisions that keep this registry: the modular scripts, the standalone
      `csRadiusVisualizer.js` and the oldest `RadiusVisualizer.js`. They differ in how they
      draw an entry's marker and in what the single slot beside the registry holds: the
      delete button in the two newer ones, the search pin in the oldest. */
  datatype Revision = Modular | Standalone | Legacy

  /** The pin a revision draws for an entry, from its key, radius and full address. */
  function Pin(rev: Revision, a: string, miles: Option<int>, full: Option<string>): (icon: Icon)
    ensures !rev.Legacy? ==> icon.LabeledPin? && icon.address == a
    ensures rev.Modular? ==> icon == CreateLabeledPinIcon(RADIUS_OPTIONS, a, miles, full)
    ensures rev.Standalone? ==> icon == CreateStandalonePinIcon(a, miles)
    ensures rev.Legacy? && miles.Some? ==> icon == LabelBadge(a, miles.value)
    ensures icon != DeleteButton && !icon.SearchPin?
  {
    match rev
    case Modular => CreateLabeledPinIcon(RADIUS_OPTIONS, a, miles, full)
    case Standalone => CreateStandalonePinIcon(a, miles)
    case Legacy => LabelBadge(a, if miles.Some? then miles.value else 0)
  }

  /** The entry `a |-> r` is drawn: its marker is live at its coordinates with the icon its
      record determines, and it has a live circle of its radius exactly when a radius is set. */
  ghost predicate Drawn(layers: map<Handle, Layer>, rev: Revision, a: string, r: Record)
  {
    && r.marker in layers
    && layers[r.marker] == Marker(r.lat, r.lon, Pin(rev, a, r.radius, r.fullAddress))
    && (r.circle.Some? <==> r.radius.Some?)
    && (r.circle.Some? ==> r.circle.value in layers && layers[r.circle.value].Circle?
                           && layers[r.circle.value].miles == r.radius.value)
  }

  /** The icon a revision puts on the layer its slot holds. */
  predicate SlotIcon(rev: Revision, icon: Icon)
  {
    if rev.Legacy? then icon.SearchPin? else icon == DeleteButton
  }

  /** The slot names a live marker with the slot's icon that no entry owns. */
  ghost predicate SlotShown(dm: Option<Handle>, tracked: set<Handle>, layers: map<Handle, Layer>, rev: Revision)
  {
    dm.Some? ==>
      && dm.value !in tracked
      && dm.value in layers
      && layers[dm.value].Marker?
      && SlotIcon(rev, layers[dm.value].icon)
  }

  /** Every entry is drawn. */
  ghost predicate EachDrawn(m: map<string, Record>, layers: map<Handle, Layer>, rev: Revision)
  {
    forall a :: a in m ==> Drawn(layers, rev, a, m[a])
  }

  /** `EachDrawn`, stated entry by entry (see `AllDrawnIff`). */
  ghost predicate AllDrawn(m: map<string, Record>, layers: map<Handle, Layer>, rev: Revision)
    decreases m.Keys
  {
    if m == map[] then true
    else
      var a :| a in m;
      Drawn(layers, rev, a, m[a]) && AllDrawn(m - {a}, layers, rev)
  }

  /** The registry, the slot beside it and the live layers agree. */
  ghost predicate Consistent(m: map<string, Record>, slot: Option<Handle>,
                             layers: map<Handle, Layer>, next: Handle, rev: Revision)
  {
    && Fresh(layers, next)
    && Disjoint(m)
    && layers.Keys == Tracked(m) + ToSet(slot)
    && SlotShown(slot, Tracked(m), layers, rev)
    && AllDrawn(m, layers, rev)
  }

  // ---- facts about Tracked and Disjoint ----

  lemma TrackedEmpty()
    ensures Tracked(map[]) == {}
  {
  }

  /** Whichever entry `Tracked` collects first, every entry's handles are in it once. */
  lemma {:induction false} TrackedSplit(m: map<string, Record>, k: string)
    requires k in m
    ensures Tracked(m) == Tracked(m - {k}) + Handles(m[k])
    decreases m.Keys
  {
    var a :| a in m && Tracked(m) == Handles(m[a]) + Tracked(m - {a});
    if a != k {
      var both := m - {a} - {k};
      assert m - {k} - {a} == both;
      assert (m - {a})[k] == m[k] && (m - {k})[a] == m[a];
      TrackedSplit(m - {a}, k);
      TrackedSplit(m - {k}, a);
    }
  }

  lemma TrackedPut(m: map<string, Record>, k: string, r: Record)
    ensures Tracked(m[k := r]) == Tracked(m - {k}) + Handles(r)
  {
    assert m[k := r] - {k} == m - {k};
    TrackedSplit(m[k := r], k);
  }

  lemma InTracked(m: map<string, Record>, a: string)
    requires a in m
    ensures Handles(m[a]) <= Tracked(m)
  {
    TrackedSplit(m, a);
  }

  /** Every tracked handle has an owner. */
  lemma {:induction false} TrackedOwner(m: map<string, Record>, h: Handle) returns (a: string)
    requires h in Tracked(m)
    ensures a in m && h in Handles(m[a])
    decreases m.Keys
  {
    var b :| b in m && Tracked(m) == Handles(m[b]) + Tracked(m - {b});
    if h in Handles(m[b]) {
      a := b;
    } else {
      a := TrackedOwner(m - {b}, h);
    }
  }

  lemma {:induction false} PairwiseRemoveDisjoint(m: map<string, Record>, k: string)
    requires PairwiseDisjoint(m) && k in m
    ensures Tracked(m - {k}) !! Handles(m[k])
  {
    var rest := m - {k};
    forall h | h in Tracked(rest)
      ensures h !in Handles(m[k])
    {
      var a := TrackedOwner(rest, h);
      assert a in m && a != k && Handles(m[a]) !! Handles(m[k]);
    }
  }

  lemma {:induction false} DisjointPut(m: map<string, Record>, k: string, r: Record)
    requires Disjoint(m)
    requires Tracked(m - {k}) !! Handles(r)
    ensures Disjoint(m[k := r])
  {
    var m' := m[k := r];
    DisjointIff(m);
    DisjointIff(m');
    forall a, b | a in m' && b in m' && a != b
      ensures Handles(m'[a]) !! Handles(m'[b])
    {
      if a == k {
        assert b in m - {k} && (m - {k})[b] == m'[b];
        InTracked(m - {k}, b);
      } else if b == k {
        assert a in m - {k} && (m - {k})[a] == m'[a];
        InTracked(m - {k}, a);
      }
    }
  }

  lemma TrackedShrinks(m: map<string, Record>, k: string)
    ensures Tracked(m - {k}) <= Tracked(m)
  {
    if k in m {
      TrackedSplit(m, k);
    } else {
      assert m - {k} == m;
    }
  }

  lemma {:induction false} AllDrawnIff(m: map<string, Record>, layers: map<Handle, Layer>, rev: Revision)
    ensures AllDrawn(m, layers, rev) <==> EachDrawn(m, layers, rev)
    decreases m.Keys
  {
    if m != map[] {
      var a :| a in m && AllDrawn(m, layers, rev) == (Drawn(layers, rev, a, m[a]) && AllDrawn(m - {a}, layers, rev));
      var rest := m - {a};
      AllDrawnIff(rest, layers, rev);
      if EachDrawn(m, layers, rev) {
        forall b | b in rest ensures Drawn(layers, rev, b, rest[b]) {
          assert rest[b] == m[b];
        }
      }
      if AllDrawn(m, layers, rev) {
        forall b | b in m ensures Drawn(layers, rev, b, m[b]) {
          if b != a {
            assert b in rest && rest[b] == m[b];
          }
        }
      }
    }
  }

  lemma {:induction false} DisjointIff(m: map<string, Record>)
    ensures Disjoint(m) <==> PairwiseDisjoint(m)
    decreases m.Keys
  {
    if m != map[] {
      var a :| a in m && Disjoint(m) == (Handles(m[a]) !! Tracked(m - {a}) && Disjoint(m - {a}));
      var rest := m - {a};
      DisjointIff(rest);
      if PairwiseDisjoint(m) {
        PairwiseRemoveDisjoint(m, a);
        forall b, c | b in rest && c in rest && b != c
          ensures Handles(rest[b]) !! Handles(rest[c])
        {
          assert rest[b] == m[b] && rest[c] == m[c];
        }
      }
      if Disjoint(m) {
        forall b, c | b in m && c in m && b != c
          ensures Handles(m[b]) !! Handles(m[c])
        {
          if b == a {
            assert c in rest && rest[c] == m[c];
            InTracked(rest, c);
          } else if c == a {
            assert b in rest && rest[b] == m[b];
            InTracked(rest, b);
          } else {
            assert rest[b] == m[b] && rest[c] == m[c];
          }
        }
      }
    }
  }

  lemma TrackedRemoveDisjoint(m: map<string, Record>, k: string)
    requires Disjoint(m) && k in m
    ensures Tracked(m - {k}) !! Handles(m[k])
  {
    DisjointIff(m);
    PairwiseRemoveDisjoint(m, k);
  }

  // ---- framing: an entry stays drawn while its own layers are untouched ----

  /** `layers'` agrees with `layers` on every handle in `hs`. */
  ghost predicate Agree(layers: map<Handle, Layer>, layers': map<Handle, Layer>, hs: set<Handle>)
  {
    forall h :: h in hs && h in layers ==> h in layers' && layers'[h] == layers[h]
  }

  lemma DrawnKept(layers: map<Handle, Layer>, layers': map<Handle, Layer>, rev: Revision, a: string, r: Record)
    requires Drawn(layers, rev, a, r)
    requires Agree(layers, layers', Handles(r))
    ensures Drawn(layers', rev, a, r)
  {
    assert r.marker in Handles(r);
    assert layers'[r.marker] == layers[r.marker];
    if r.circle.Some? {
      var c := r.circle.value;
      assert c in Handles(r);
      assert c in layers' && layers'[c] == layers[c];
    }
  }

  lemma {:induction false} AllDrawnKept(m: map<string, Record>, layers: map<Handle, Layer>,
                                        layers': map<Handle, Layer>, rev: Revision)
    requires AllDrawn(m, layers, rev)
    requires Agree(layers, layers', Tracked(m))
    ensures AllDrawn(m, layers', rev)
  {
    AllDrawnIff(m, layers, rev);
    AllDrawnIff(m, layers', rev);
    forall a | a in m
      ensures Drawn(layers', rev, a, m[a])
    {
      assert Drawn(layers, rev, a, m[a]);
      InTracked(m, a);
      DrawnKept(layers, layers', rev, a, m[a]);
    }
  }

  lemma AllDrawnRemove(m: map<string, Record>, layers: map<Handle, Layer>, rev: Revision, k: string)
    requires AllDrawn(m, layers, rev)
    ensures AllDrawn(m - {k}, layers, rev)
  {
    var rest := m - {k};
    AllDrawnIff(m, layers, rev);
    AllDrawnIff(rest, layers, rev);
    forall a | a in rest
      ensures Drawn(layers, rev, a, rest[a])
    {
      assert rest[a] == m[a];
    }
  }

  lemma AllDrawnPut(m: map<string, Record>, layers: map<Handle, Layer>, rev: Revision, k: string, r: Record)
    requires AllDrawn(m - {k}, layers, rev)
    requires Drawn(layers, rev, k, r)
    ensures AllDrawn(m[k := r], layers, rev)
  {
    var m' := m[k := r];
    AllDrawnIff(m - {k}, layers, rev);
    AllDrawnIff(m', layers, rev);
    forall a | a in m'
      ensures Drawn(layers, rev, a, m'[a])
    {
      if a != k {
        assert a in m - {k} && (m - {k})[a] == m'[a];
      }
    }
  }

  // ---- the handle bookkeeping of an update, as plain set algebra ----

  /** `keys` are the live handles, `t` the tracked ones, `rest` those of the entries other
      than the one updated, `gone` that entry's handles, `d` the slot's and `added`
      the handles of the entry's added record. */
  lemma ReplaceSets(keys: set<Handle>, t: set<Handle>, rest: set<Handle>, gone: set<Handle>, d: set<Handle>,
                    added: set<Handle>, keys': set<Handle>, t': set<Handle>)
    requires keys == t + d && t == rest + gone && rest !! gone && d !! t
    requires keys' == (keys - gone) + added && added !! (keys - gone) && t' == rest + added
    ensures keys' == t' + d
    ensures rest !! added && d !! t' && d <= keys - gone
  {
  }

  lemma RemoveSets(keys: set<Handle>, t: set<Handle>, rest: set<Handle>, gone: set<Handle>, d: set<Handle>)
    requires keys == t + d && t == rest + gone && rest !! gone && d !! t
    ensures keys - gone == rest + d
    ensures d !! gone && d !! rest
  {
  }

  lemma HideSets(keys: set<Handle>, t: set<Handle>, d: set<Handle>)
    requires keys == t + d && d !! t
    ensures keys - d == t
  {
  }

  // ---- the two shapes of registry update ----

  /** The handle bookkeeping of `ReplaceConsistent`. */
  lemma {:induction false} ReplaceKeys(m: map<string, Record>, dm: Option<Handle>, layers: map<Handle, Layer>,
                                       k: string, r': Record, layers': map<Handle, Layer>)
    requires Disjoint(m)
    requires layers.Keys == Tracked(m) + ToSet(dm)
    requires ToSet(dm) !! Tracked(m)
    requires layers'.Keys == (layers.Keys - HandlesAt(m, k)) + Handles(r')
    requires Handles(r') !! (layers.Keys - HandlesAt(m, k))
    ensures layers'.Keys == Tracked(m[k := r']) + ToSet(dm)
    ensures Disjoint(m[k := r'])
    ensures Tracked(m - {k}) !! HandlesAt(m, k)
    ensures ToSet(dm) !! Tracked(m[k := r']) && ToSet(dm) <= layers.Keys - HandlesAt(m, k)
  {
    var rest := m - {k};
    TrackedPut(m, k, r');
    if k in m {
      TrackedSplit(m, k);
      TrackedRemoveDisjoint(m, k);
    } else {
      assert rest == m;
    }
    ReplaceSets(layers.Keys, Tracked(m), Tracked(rest), HandlesAt(m, k), ToSet(dm), Handles(r'),
                layers'.Keys, Tracked(m[k := r']));
    DisjointPut(m, k, r');
  }

  /** The drawing half of `ReplaceConsistent`. */
  lemma {:induction false} ReplaceDrawn(m: map<string, Record>, layers: map<Handle, Layer>, rev: Revision,
                                        k: string, r': Record, layers': map<Handle, Layer>)
    requires AllDrawn(m, layers, rev)
    requires Tracked(m - {k}) !! HandlesAt(m, k)
    requires forall h :: h in layers && h !in HandlesAt(m, k) ==> h in layers' && layers'[h] == layers[h]
    requires Drawn(layers', rev, k, r')
    ensures AllDrawn(m[k := r'], layers', rev)
  {
    AgreeOutside(layers, layers', Tracked(m - {k}), HandlesAt(m, k));
    AllDrawnRemove(m, layers, rev, k);
    AllDrawnKept(m - {k}, layers, layers', rev);
    AllDrawnPut(m, layers', rev, k, r');
  }

  /** The entry under `k` (present or not) gets the record `r'`. If the new layers keep
      every live handle the old entry did not own, add exactly the handles of `r'` and
      nothing already live besides, leave every other layer alone and draw `r'`, the
      registry and the map still agree. */
  lemma ReplaceConsistent(m: map<string, Record>, dm: Option<Handle>, layers: map<Handle, Layer>,
                          next: Handle, rev: Revision, k: string, r': Record,
                          layers': map<Handle, Layer>, next': Handle)
    requires Consistent(m, dm, layers, next, rev)
    requires layers'.Keys == (layers.Keys - HandlesAt(m, k)) + Handles(r')
    requires Handles(r') !! (layers.Keys - HandlesAt(m, k))
    requires forall h :: h in layers && h !in HandlesAt(m, k) ==> h in layers' && layers'[h] == layers[h]
    requires Drawn(layers', rev, k, r')
    requires Fresh(layers', next')
    ensures Consistent(m[k := r'], dm, layers', next', rev)
  {
    ReplaceKeys(m, dm, layers, k, r', layers');
    ReplaceDrawn(m, layers, rev, k, r', layers');
  }

  /** The entry under `k` is dropped and its layers released; the slot stays. */
  lemma {:induction false} RemoveConsistent(m: map<string, Record>, dm: Option<Handle>, layers: map<Handle, Layer>,
                                            next: Handle, rev: Revision, k: string)
    requires Consistent(m, dm, layers, next, rev)
    requires k in m
    ensures Consistent(m - {k}, dm, layers - Handles(m[k]), next, rev)
  {
    var rest := m - {k};
    var layers' := layers - Handles(m[k]);
    TrackedSplit(m, k);
    TrackedRemoveDisjoint(m, k);
    RemoveSets(layers.Keys, Tracked(m), Tracked(rest), Handles(m[k]), ToSet(dm));
    assert layers'.Keys == Tracked(rest) + ToSet(dm);
    assert Disjoint(rest) by {
      DisjointIff(m);
      DisjointIff(rest);
      forall a, b | a in rest && b in rest && a != b
        ensures Handles(rest[a]) !! Handles(rest[b])
      {
        assert rest[a] == m[a] && rest[b] == m[b];
      }
    }
    AgreeOutside(layers, layers', Tracked(rest), Handles(m[k]));
    AllDrawnRemove(m, layers, rev, k);
    AllDrawnKept(rest, layers, layers', rev);
  }

  lemma AgreeOutside(layers: map<Handle, Layer>, layers': map<Handle, Layer>, hs: set<Handle>, changed: set<Handle>)
    requires forall h :: h in layers && h !in changed ==> h in layers' && layers'[h] == layers[h]
    requires hs !! changed
    ensures Agree(layers, layers', hs)
  {
  }

  // ---- the registry updates the controller performs ----

  /** What a search or reverse lookup does to the layers, as `ReplaceConsistent` asks for it. */
  lemma UpsertFrame(m: map<string, Record>, layers: map<Handle, Layer>, next: Handle, rev: Revision,
                    k: string, lat: Num, lon: Num, full: Option<string>)
    requires Fresh(layers, next)
    ensures var r' := Record(lat, lon, None, None, next, full);
            var layers' := (layers - HandlesAt(m, k))[next := Marker(lat, lon, Pin(rev, k, None, full))];
            && layers'.Keys == (layers.Keys - HandlesAt(m, k)) + Handles(r')
            && Handles(r') !! (layers.Keys - HandlesAt(m, k))
            && (forall h :: h in layers && h !in HandlesAt(m, k) ==> h in layers' && layers'[h] == layers[h])
            && Drawn(layers', rev, k, r')
            && Fresh(layers', next + 1)
  {
    assert next !in layers;
  }

  /** A search or reverse lookup under `k`: the old entry's layers are released, a fresh
      marker is added and the entry is replaced by one with no radius. */
  lemma UpsertConsistent(m: map<string, Record>, dm: Option<Handle>, layers: map<Handle, Layer>,
                         next: Handle, rev: Revision, k: string, lat: Num, lon: Num, full: Option<string>)
    requires Consistent(m, dm, layers, next, rev)
    ensures Consistent(m[k := Record(lat, lon, None, None, next, full)], dm,
                       (layers - HandlesAt(m, k))[next := Marker(lat, lon, Pin(rev, k, None, full))], next + 1, rev)
  {
    UpsertFrame(m, layers, next, rev, k, lat, lon, full);
    ReplaceConsistent(m, dm, layers, next, rev, k, Record(lat, lon, None, None, next, full),
                      (layers - HandlesAt(m, k))[next := Marker(lat, lon, Pin(rev, k, None, full))], next + 1);
  }

  /** What choosing a radius does to the layers, as `ReplaceConsistent` asks for it. */
  lemma SetRadiusFrame(m: map<string, Record>, layers: map<Handle, Layer>, next: Handle, rev: Revision,
                       k: string, v: int, clat: Num, clon: Num)
    requires Fresh(layers, next)
    requires k in m && Drawn(layers, rev, k, m[k])
    ensures var r := m[k];
            var r' := r.(radius := Some(v), circle := Some(next));
            var layers' := Relabel((layers - ToSet(r.circle))[next := Circle(clat, clon, v)],
                                   r.marker, Pin(rev, k, Some(v), r.fullAddress));
            && layers'.Keys == (layers.Keys - HandlesAt(m, k)) + Handles(r')
            && Handles(r') !! (layers.Keys - HandlesAt(m, k))
            && (forall h :: h in layers && h !in HandlesAt(m, k) ==> h in layers' && layers'[h] == layers[h])
            && Drawn(layers', rev, k, r')
            && Fresh(layers', next + 1)
  {
    var r := m[k];
    var c := ToSet(r.circle);
    var added := (layers - c)[next := Circle(clat, clon, v)];
    var layers' := Relabel(added, r.marker, Pin(rev, k, Some(v), r.fullAddress));
    assert next !in layers;
    assert r.marker in added && added[r.marker] == layers[r.marker];
    assert layers'[r.marker] == Marker(r.lat, r.lon, Pin(rev, k, Some(v), r.fullAddress));
    assert HandlesAt(m, k) == {r.marker} + c;
    assert Handles(r.(radius := Some(v), circle := Some(next))) == {r.marker, next};
    assert layers'.Keys == (layers.Keys - c) + {next};
  }

  /** A radius chosen for an existing entry: the old circle is released, the marker is
      relabelled and a fresh circle is added; the rest of the record is kept. */
  lemma SetRadiusConsistent(m: map<string, Record>, dm: Option<Handle>, layers: map<Handle, Layer>,
                            next: Handle, rev: Revision, k: string, v: int, clat: Num, clon: Num)
    requires Consistent(m, dm, layers, next, rev)
    requires k in m
    ensures var r := m[k];
            Consistent(m[k := r.(radius := Some(v), circle := Some(next))], dm,
                       Relabel((layers - ToSet(r.circle))[next := Circle(clat, clon, v)],
                               r.marker, Pin(rev, k, Some(v), r.fullAddress)),
                       next + 1, rev)
  {
    var r := m[k];
    AllDrawnIff(m, layers, rev);
    assert Drawn(layers, rev, k, r);
    SetRadiusFrame(m, layers, next, rev, k, v, clat, clon);
    ReplaceConsistent(m, dm, layers, next, rev, k, r.(radius := Some(v), circle := Some(next)),
                      Relabel((layers - ToSet(r.circle))[next := Circle(clat, clon, v)],
                              r.marker, Pin(rev, k, Some(v), r.fullAddress)), next + 1);
  }

  /** Deleting an existing entry: its layers and the slot's layer are released. */
  lemma DeleteConsistent(m: map<string, Record>, dm: Option<Handle>, layers: map<Handle, Layer>,
                         next: Handle, rev: Revision, k: string)
    requires Consistent(m, dm, layers, next, rev)
    requires k in m
    ensures Consistent(m - {k}, None, layers - Handles(m[k]) - ToSet(dm), next, rev)
  {
    RemoveConsistent(m, dm, layers, next, rev, k);
    HideSlotConsistent(m - {k}, dm, layers - Handles(m[k]), next, rev);
  }

  /** The slot is (re)filled: the layer it held is released first and a fresh marker with
      the slot's icon takes its place. */
  lemma {:induction false} ShowSlotConsistent(m: map<string, Record>, dm: Option<Handle>, layers: map<Handle, Layer>,
                                              next: Handle, rev: Revision, lat: Num, lon: Num, icon: Icon)
    requires Consistent(m, dm, layers, next, rev)
    requires SlotIcon(rev, icon)
    ensures Consistent(m, Some(next), (layers - ToSet(dm))[next := Marker(lat, lon, icon)], next + 1, rev)
  {
    var layers' := (layers - ToSet(dm))[next := Marker(lat, lon, icon)];
    assert next !in layers.Keys;
    assert layers'.Keys == (layers.Keys - ToSet(dm)) + {next};
    AgreeOutside(layers, layers', Tracked(m), ToSet(dm) + {next});
    AllDrawnKept(m, layers, layers', rev);
  }

  /** The slot's marker is the only live marker with the slot's icon: an entry's marker carries
      its pin and a circle is no marker, so at most one delete button (or search pin) is live. */
  lemma SlotIsOnly(m: map<string, Record>, slot: Option<Handle>, layers: map<Handle, Layer>,
                   next: Handle, rev: Revision, h: Handle)
    requires Consistent(m, slot, layers, next, rev)
    requires h in layers && layers[h].Marker? && SlotIcon(rev, layers[h].icon)
    ensures slot == Some(h)
  {
    if h in Tracked(m) {
      var a := TrackedOwner(m, h);
      AllDrawnIff(m, layers, rev);
      assert false;
    }
  }

  lemma {:induction false} HideSlotParts(m: map<string, Record>, dm: Option<Handle>, layers: map<Handle, Layer>,
                                           rev: Revision)
    requires layers.Keys == Tracked(m) + ToSet(dm)
    requires ToSet(dm) !! Tracked(m)
    requires AllDrawn(m, layers, rev)
    ensures (layers - ToSet(dm)).Keys == Tracked(m) + ToSet(None)
    ensures AllDrawn(m, layers - ToSet(dm), rev)
  {
    var layers' := layers - ToSet(dm);
    assert layers'.Keys == layers.Keys - ToSet(dm);
    HideSets(layers.Keys, Tracked(m), ToSet(dm));
    assert Tracked(m) + ToSet(None) == Tracked(m);
    AgreeOutside(layers, layers', Tracked(m), ToSet(dm));
    AllDrawnKept(m, layers, layers', rev);
  }

  /** The slot is emptied and the layer it held released. */
  lemma HideSlotConsistent(m: map<string, Record>, dm: Option<Handle>, layers: map<Handle, Layer>,
                             next: Handle, rev: Revision)
    requires Consistent(m, dm, layers, next, rev)
    ensures Consistent(m, None, layers - ToSet(dm), next, rev)
  {
    assert ToSet(dm) !! Tracked(m);
    HideSlotParts(m, dm, layers, rev);
  }

  /** An empty registry with an empty slot agrees with an empty map, whatever the counter. */
  lemma EmptyConsistent(next: Handle, rev: Revision)
    ensures Consistent(map[], None, map[], next, rev)
  {
    TrackedEmpty();
  }

  /** Clear-all: once every entry's layers and the slot's layer are released, nothing is
      left on the map, and the empty registry agrees with the empty map. */
  lemma ClearConsistent(m: map<string, Record>, dm: Option<Handle>, layers: map<Handle, Layer>,
                        next: Handle, rev: Revision)
    requires Consistent(m, dm, layers, next, rev)
    ensures layers - Tracked(m) - ToSet(dm) == map[]
    ensures Consistent(map[], None, map[], next, rev)
  {
    TrackedEmpty();
    assert (layers - Tracked(m) - ToSet(dm)).Keys == {};
  }
}
