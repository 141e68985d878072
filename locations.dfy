/** Delivery locations: the public list of active ones, and the administrator's create,
    update and activate/deactivate operations. */
module Locations {
  import opened Wrappers
  import opened Schema
  import opened Store
  import opened Text
  import opened Query

  datatype LocationError = NameRequired | LocationNotFound

  function IsActive(l: Location): bool { l.isActive }

  /** Ascending order of location names. */
  function NameLe(a: Location, b: Location): bool { LexLe(a.name, b.name) }

  lemma NameLeTotalPreorder()
    ensures TotalPreorder(NameLe)
  {
    forall a: Location, b: Location ensures NameLe(a, b) || NameLe(b, a) {
      LexLeTotal(a.name, b.name);
    }
    forall a: Location, b: Location, c: Location | NameLe(a, b) && NameLe(b, c) ensures NameLe(a, c) {
      LexLeTransitive(a.name, b.name, c.name);
    }
  }

  /** The public listing: exactly the active locations, each once, by name ascending. */
  function ActiveLocations(locations: seq<Location>): (r: seq<Location>)
    ensures multiset(r) == multiset(Filter(locations, IsActive))
    ensures forall l :: l in r <==> l in locations && l.isActive
    ensures forall i, j :: 0 <= i < j < |r| ==> LexLe(r[i].name, r[j].name)
  {
    var active := Filter(locations, IsActive);
    var r := Sort(active, NameLe);
    FilterMembers(locations, IsActive);
    NameLeTotalPreorder();
    SortSorted(active, NameLe);
    assert forall l :: l in r <==> l in multiset(r);
    assert forall l :: l in active <==> l in multiset(active);
    assert forall i, j :: 0 <= i < j < |r| ==> NameLe(r[i], r[j]);
    r
  }

  /** Creates a location: a missing name is refused and nothing is stored; otherwise a new
      active location is stored under the next identity. */
  method CreateLocation(db: Db, name: string, address: Option<string>) returns (r: Result<Location, LocationError>)
    requires db.Valid()
    modifies db`locations
    ensures db.Valid()
    ensures name == "" ==> r == Err(NameRequired) && db.locations == old(db.locations)
    ensures name != "" ==>
      && r == Ok(Location(|old(db.locations)|, name, address, true))
      && db.locations == old(db.locations) + [r.value]
  {
    if name == "" {
      return Err(NameRequired);
    }
    var l := Location(|db.locations|, name, address, true);
    db.locations := db.locations + [l];
    r := Ok(l);
  }

  /** The fields an update request may carry; an absent field is left as it is. */
  datatype LocationPatch = LocationPatch(name: Option<string>, address: Option<string>, isActive: Option<bool>)

  /** A location with the supplied fields replaced; its identity never changes. */
  function Patched(l: Location, p: LocationPatch): (r: Location)
    ensures r.id == l.id
    ensures r.name == (if p.name.Some? then p.name.value else l.name)
    ensures r.address == (if p.address.Some? then p.address else l.address)
    ensures r.isActive == (if p.isActive.Some? then p.isActive.value else l.isActive)
  {
    Location(l.id,
      if p.name.Some? then p.name.value else l.name,
      if p.address.Some? then p.address else l.address,
      if p.isActive.Some? then p.isActive.value else l.isActive)
  }

  /** An empty patch changes nothing, and applying a patch twice is applying it once. */
  lemma PatchedIdempotent(l: Location, p: LocationPatch)
    ensures Patched(l, LocationPatch(None, None, None)) == l
    ensures Patched(Patched(l, p), p) == Patched(l, p)
  {
  }

  /** Updates a location: an unknown identity is reported and nothing changes; otherwise
      only that location is patched. */
  method UpdateLocation(db: Db, id: int, p: LocationPatch) returns (r: Result<Location, LocationError>)
    requires db.Valid()
    modifies db`locations
    ensures db.Valid()
    ensures !(0 <= id < |old(db.locations)|) ==> r == Err(LocationNotFound) && db.locations == old(db.locations)
    ensures 0 <= id < |old(db.locations)| ==>
      && r == Ok(Patched(old(db.locations)[id], p))
      && db.locations == old(db.locations)[id := r.value]
  {
    if !(0 <= id < |db.locations|) {
      return Err(LocationNotFound);
    }
    var l := Patched(db.locations[id], p);
    db.locations := db.locations[id := l];
    r := Ok(l);
  }

  /** A location with its active flag flipped. */
  function Toggled(l: Location): (r: Location)
    ensures r.isActive == !l.isActive
    ensures r.id == l.id && r.name == l.name && r.address == l.address
  {
    l.(isActive := !l.isActive)
  }

  lemma ToggledTwice(l: Location)
    ensures Toggled(Toggled(l)) == l
  {
  }

  /** Activates or deactivates a location: an unknown identity is reported and nothing
      changes; otherwise exactly that location's flag flips. */
  method ToggleLocation(db: Db, id: int) returns (r: Result<Location, LocationError>)
    requires db.Valid()
    modifies db`locations
    ensures db.Valid()
    ensures !(0 <= id < |old(db.locations)|) ==> r == Err(LocationNotFound) && db.locations == old(db.locations)
    ensures 0 <= id < |old(db.locations)| ==>
      && r == Ok(Toggled(old(db.locations)[id]))
      && db.locations == old(db.locations)[id := r.value]
  {
    if !(0 <= id < |db.locations|) {
      return Err(LocationNotFound);
    }
    var l := db.locations[id];
    l := l.(isActive := !l.isActive);
    db.locations := db.locations[id := l];
    r := Ok(l);
  }

  /** Toggling the same location twice restores the stored locations. */
  lemma ToggleTwiceRestores(locations: seq<Location>, id: nat)
    requires id < |locations|
    ensures var once := locations[id := Toggled(locations[id])];
      once[id := Toggled(once[id])] == locations
  {
    var once := locations[id := Toggled(locations[id])];
    ToggledTwice(locations[id]);
    assert once[id := Toggled(once[id])] == locations;
  }

  /** A toggle moves that location into or out of the public listing, and every other
      location stays in or out of the listing as it was. */
  lemma ToggleListing(locations: seq<Location>, id: nat, k: nat)
    requires LocationsIndexed(locations) && id < |locations| && k < |locations| && k != id
    ensures var after := locations[id := Toggled(locations[id])];
      && (Toggled(locations[id]) in ActiveLocations(after) <==> !locations[id].isActive)
      && (locations[k] in ActiveLocations(after) <==> locations[k] in ActiveLocations(locations))
  {
    var after := locations[id := Toggled(locations[id])];
    assert after[k] == locations[k] && after[id] == Toggled(locations[id]);
  }
}
