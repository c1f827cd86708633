/** What a spawn directive must be to be accepted, what it is resolved to, and what the reason
    of a refusal means. */
module SpawnRules {
  import opened LaneGraph
  import opened Director

  /** The first lane with an id. */
  predicate LaneNamed(site: Site, id: string, l: nat) {
    l < |site.lanes| && site.lanes[l].id == id && forall k | 0 <= k < l :: site.lanes[k].id != id
  }

  predicate SomeLane(site: Site, id: string) {
    exists l | 0 <= l < |site.lanes| :: site.lanes[l].id == id
  }

  predicate SomeOrigin(site: Site, id: string)
    requires site.Valid()
  {
    exists k | 0 <= k < |site.origins| :: site.lanes[site.origins[k]].id == id
  }

  lemma LaneFound(site: Site, id: string) returns (l: nat)
    requires SomeLane(site, id)
    ensures LaneNamed(site, id, l) && FirstAt(LaneIds(site.lanes), id) == Some(l)
  {
    var ids := LaneIds(site.lanes);
    var k :| 0 <= k < |site.lanes| && site.lanes[k].id == id;
    assert ids[k] == id;
    l := FirstAt(ids, id).value;
    forall j | 0 <= j < l ensures site.lanes[j].id != id {
      assert ids[..l][j] == ids[j];
    }
  }

  lemma NoLane(site: Site, id: string)
    ensures SomeLane(site, id) <==> FirstAt(LaneIds(site.lanes), id).Some?
  {
    var ids := LaneIds(site.lanes);
    if SomeLane(site, id) {
      var k :| 0 <= k < |site.lanes| && site.lanes[k].id == id;
      assert ids[k] == id;
    }
  }

  lemma NoOrigin(site: Site, id: string)
    requires site.Valid()
    ensures SomeOrigin(site, id) <==> FirstAt(OriginIds(site), id).Some?
  {
    var ids := OriginIds(site);
    if SomeOrigin(site, id) {
      var k :| 0 <= k < |site.origins| && site.lanes[site.origins[k]].id == id;
      assert ids[k] == id;
    }
  }

  lemma UniqueName(site: Site, id: string, a: nat)
    requires LaneNamed(site, id, a)
    ensures SomeLane(site, id) && forall b: nat | LaneNamed(site, id, b) :: b == a
  {
  }

  /** What each reason says of the directive. */
  ghost predicate Means(site: Site, queue: seq<TickedSpawn>, buffer: seq<TickedSpawn>, d: SpawnDirective, why: Refusal)
    requires site.Valid()
  {
    match why
    case RequestIdTooLong => |d.requestId| >= 65536
    case BadOffset => d.offset < 0.0
    case UnknownOrigin => !SomeLane(site, d.origin)
    case OffsetPastEnd => exists l: nat :: LaneNamed(site, d.origin, l) && d.offset >= site.lanes[l].length
    case NotAnOrigin => d.offset == 0.0 && !SomeOrigin(site, d.origin)
    case UnknownDestination => d.destination != "" && !SomeLane(site, d.destination)
    case DestinationIsWall => d.destination != "" && exists l: nat :: LaneNamed(site, d.destination, l) && site.lanes[l].endWall
    case UnknownType => d.typeName !in site.types
    case DuplicateQueued => exists i | 0 <= i < |queue| :: queue[i].directive.requestId == d.requestId
    case DuplicateBuffered => exists i | 0 <= i < |buffer| :: buffer[i].directive.requestId == d.requestId
  }

  /** No place to inject: a negative offset, one past the end of its lane or on no lane, or
      none off a portal. */
  ghost predicate BadPlace(site: Site, d: SpawnDirective)
    requires site.Valid()
  {
    || d.offset < 0.0
    || (d.offset > 0.0 && (!SomeLane(site, d.origin) || exists l: nat :: LaneNamed(site, d.origin, l) && d.offset >= site.lanes[l].length))
    || (d.offset == 0.0 && !SomeOrigin(site, d.origin))
  }

  ghost predicate BadDestination(site: Site, d: SpawnDirective) {
    d.destination != ""
    && (!SomeLane(site, d.destination) || exists l: nat :: LaneNamed(site, d.destination, l) && site.lanes[l].endWall)
  }

  /** Everything a directive can be refused for. */
  ghost predicate SomeReason(site: Site, queue: seq<TickedSpawn>, buffer: seq<TickedSpawn>, d: SpawnDirective)
    requires site.Valid()
  {
    || |d.requestId| > 65535 || BadPlace(site, d) || BadDestination(site, d) || d.typeName !in site.types
    || exists i | 0 <= i < |queue + buffer| :: (queue + buffer)[i].directive.requestId == d.requestId
  }

  /** An accepted directive is resolved to a lane of its origin's name - a portal, or with an
      offset the first such lane, longer than the offset - and to the first type of its name. */
  ghost predicate Resolved(site: Site, d: SpawnDirective, s: TickedSpawn)
    requires site.Valid()
  {
    && s.directive == d && s.tick == 0
    && s.typeIdx < |site.types| && site.types[s.typeIdx] == d.typeName && (forall k | 0 <= k < s.typeIdx :: site.types[k] != d.typeName)
    && s.laneIdx < |site.lanes| && site.lanes[s.laneIdx].id == d.origin
    && if d.offset > 0.0 then LaneNamed(site, d.origin, s.laneIdx) && d.offset < site.lanes[s.laneIdx].length
       else s.laneIdx in site.origins
  }

  lemma PlaceMeans(site: Site, queue: seq<TickedSpawn>, buffer: seq<TickedSpawn>, d: SpawnDirective)
    requires site.Valid()
    ensures match PlaceOf(site, d)
      case Nowhere(why) => Means(site, queue, buffer, d, why) && BadPlace(site, d)
      case At(l) =>
        && !BadPlace(site, d) && l < |site.lanes| && site.lanes[l].id == d.origin
        && if d.offset > 0.0 then LaneNamed(site, d.origin, l) && d.offset < site.lanes[l].length else l in site.origins
  {
    hide FirstAt;
    NoLane(site, d.origin);
    NoOrigin(site, d.origin);
    if SomeLane(site, d.origin) {
      var l := LaneFound(site, d.origin);
      UniqueName(site, d.origin, l);
    } else {
      NoLaneNoOrigin(site, d.origin);
    }
    if d.offset == 0.0 && SomeOrigin(site, d.origin) {
      assert site.origins[FirstAt(OriginIds(site), d.origin).value] in site.origins;
    }
  }

  lemma DestinationMeans(site: Site, d: SpawnDirective)
    requires d.destination != ""
    ensures match FirstAt(LaneIds(site.lanes), d.destination)
      case None => !SomeLane(site, d.destination)
      case Some(l) => LaneNamed(site, d.destination, l) && SomeLane(site, d.destination) && (BadDestination(site, d) <==> site.lanes[l].endWall)
  {
    hide FirstAt;
    NoLane(site, d.destination);
    if SomeLane(site, d.destination) {
      var l := LaneFound(site, d.destination);
      UniqueName(site, d.destination, l);
    }
  }

  lemma DuplicateMeans(queue: seq<TickedSpawn>, buffer: seq<TickedSpawn>, id: string)
    ensures (exists i | 0 <= i < |queue + buffer| :: (queue + buffer)[i].directive.requestId == id) <==> HasId(queue, id) || HasId(buffer, id)
  {
    var all := queue + buffer;
    forall i | 0 <= i < |queue| ensures all[i] == queue[i] {}
    forall i | 0 <= i < |buffer| ensures all[|queue| + i] == buffer[i] {}
  }

  lemma NoLaneNoOrigin(site: Site, id: string)
    requires site.Valid() && !SomeLane(site, id)
    ensures !SomeOrigin(site, id)
  {
    forall k | 0 <= k < |site.origins| ensures site.lanes[site.origins[k]].id != id {
      assert site.origins[k] < |site.lanes|;
    }
  }

  /** A directive is accepted if and only if there is nothing to refuse it for; it is then
      resolved by name, and a refusal names a reason that holds. */
  lemma AcceptedIff(site: Site, queue: seq<TickedSpawn>, buffer: seq<TickedSpawn>, d: SpawnDirective)
    requires site.Valid()
    ensures match Judge(site, queue, buffer, d)
      case Accepted(s) => !SomeReason(site, queue, buffer, d) && Resolved(site, d, s)
      case Refused(why) => Means(site, queue, buffer, d, why) && SomeReason(site, queue, buffer, d)
  {
    hide FirstAt, PlaceOf, LaneNamed, SomeLane, SomeOrigin, BadPlace;
    PlaceMeans(site, queue, buffer, d);
    if d.destination != "" {
      DestinationMeans(site, d);
    }
    DuplicateMeans(queue, buffer, d.requestId);
    TypeFound(site, d.typeName);
  }

  lemma TypeFound(site: Site, name: string)
    ensures var r := FirstAt(site.types, name); r.Some? ==> forall k | 0 <= k < r.value :: site.types[k] != name
  {
    var r := FirstAt(site.types, name);
    if r.Some? {
      forall k | 0 <= k < r.value ensures site.types[k] != name {
        assert site.types[..r.value][k] == site.types[k];
      }
    }
  }
}
