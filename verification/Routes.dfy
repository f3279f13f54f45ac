/** Learned routes: how a path heard on one packet becomes the direct route of later ones. */
module Routes {
  import opened Bytes
  import opened Packet
  import opened Envelope
  import Dm

  /** What a contact record says about its route; an absent path and an empty one both mean flooding. */
  datatype Contact = Contact(path: Option<Data>, pathRaw: nat)

  datatype Route = Route(kind: nat, raw: nat, path: Data)

  const FLOOD_ROUTE := Route(ROUTE_TYPE_FLOOD, 0, [])

  function HasPath(contact: Contact): bool { contact.path.Some? && contact.path.value != [] }

  function StoredRaw(contact: Contact): nat
    requires HasPath(contact)
  {
    if contact.pathRaw != 0 then contact.pathRaw else |contact.path.value|
  }

  /** _route */
  function RouteTo(contact: Option<Contact>): Route {
    if contact.Some? && HasPath(contact.value)
    then Route(ROUTE_TYPE_DIRECT, StoredRaw(contact.value), contact.value.path.value)
    else FLOOD_ROUTE
  }

  /** _learn_path */
  function Learn(contact: Contact, dec: Dm.PathReturn): Contact {
    if contact.path == Some(dec.path) then contact else Contact(Some(dec.path), dec.pathLenRaw)
  }

  /** _reset_path */
  function Reset(contact: Contact): Contact {
    if HasPath(contact) then Contact(None, 0) else contact
  }

  /** The length byte is one the parser accepts, and count times size is the length of the path. */
  ghost predicate Fits(raw: nat, path: Data) {
    raw < 256 && IsValidPathLen(raw) && |path| == PathByteLen(raw)
  }

  ghost predicate WellRouted(contact: Contact) {
    HasPath(contact) ==> Fits(StoredRaw(contact), contact.path.value)
  }

  function PacketTo(route: Route, payloadType: nat, payload: Data): Packet {
    Packet(MakeHeader(route.kind, payloadType, 0), route.raw, route.path, payload, 0, 0)
  }

  /** Learning and forgetting keep stored routes well formed, if what is taught is. */
  lemma LearningKeepsRoutes(contact: Contact, dec: Dm.PathReturn)
    requires WellRouted(contact) && Fits(dec.pathLenRaw, dec.path)
    ensures WellRouted(Learn(contact, dec)) && WellRouted(Reset(contact))
  {
    if dec.path != [] {
      CountOfNonempty(dec.pathLenRaw, dec.path);
    }
  }

  lemma CountOfNonempty(raw: nat, path: Data)
    requires Fits(raw, path) && path != []
    ensures raw != 0
  {
  }

  /** The route a PATH return teaches; a path of no hops comes from a direct neighbour and teaches flooding. */
  function TaughtRoute(dec: Dm.PathReturn): Route {
    if dec.path == [] then FLOOD_ROUTE
    else Route(ROUTE_TYPE_DIRECT, if dec.pathLenRaw != 0 then dec.pathLenRaw else |dec.path|, dec.path)
  }

  /** After _learn_path the route in use is the one taught, except where the path bytes were already
      stored: then an old length byte stays, and the route is the one taught only if that byte is the same. */
  lemma LearnedRouteIsTaught(contact: Contact, dec: Dm.PathReturn)
    ensures RouteTo(Some(Learn(contact, dec))) == TaughtRoute(dec)
       <==> (dec.path == [] || contact.path != Some(dec.path) || StoredRaw(contact) == TaughtRoute(dec).raw)
  {
  }

  /** Two one-byte hashes against one two-byte hash: the same path bytes, and the new length byte is lost. */
  lemma StaleLengthByte(key: Key)
    ensures var stored := Contact(Some([1, 2]), EncodePathLen(2, 1));
            var dec := Dm.PathReturn(key, 7, [1, 2], 0x41, None);
            && Fits(stored.pathRaw, [1, 2]) && Fits(dec.pathLenRaw, dec.path)
            && Learn(stored, dec).pathRaw != dec.pathLenRaw
  {
    PathLenIsSum(2, 1);
  }

  /** A decoded PATH return leaves a contact with a well-formed route exactly when it holds no path, or its
      path was stored already and that route was well formed, or its length byte is valid and its plaintext
      as long as that byte says; _parse_path checks neither. */
  lemma TaughtRouteFits(contact: Contact, key: Key, srcHash: Byte, pt: Data)
    requires |pt| >= 1
    ensures var dec := Dm.ParsePath(key, srcHash, pt).value;
            WellRouted(Learn(contact, dec)) <==>
              if dec.path == [] then true
              else if contact.path == Some(dec.path) then WellRouted(contact)
              else IsValidPathLen(pt[0]) && |pt| >= 1 + PathByteLen(pt[0])
  {
    var dec := Dm.ParsePath(key, srcHash, pt).value;
    Dm.ParsedPathLength(key, srcHash, pt);
    if dec.path != [] {
      assert dec.pathLenRaw != 0;
    }
  }

  /** The headers of routed packets: neither kind of route carries transport codes. */
  lemma RouteHeader(kind: nat, payloadType: nat)
    requires kind == ROUTE_TYPE_FLOOD || kind == ROUTE_TYPE_DIRECT
    ensures var h := MakeHeader(kind, payloadType, 0);
            h < 256 && RouteType(h) == kind && PayloadType(h) == payloadType % 16 && !HasTransportCodes(h)
  {
    FieldsOfHeader(kind, payloadType, 0);
  }

  /** A packet on a well-formed route is read back as it was sent. */
  lemma RoutedPacketParses(contact: Option<Contact>, payloadType: nat, payload: Data)
    requires contact.Some? ==> WellRouted(contact.value)
    requires 1 <= |payload| <= MAX_PACKET_PAYLOAD
    ensures var p := PacketTo(RouteTo(contact), payloadType, payload);
            WellFormed(p) && Parse(ToBytes(p)) == Ok(p)
  {
    var route := RouteTo(contact);
    var p := PacketTo(route, payloadType, payload);
    RouteHeader(route.kind, payloadType);
    PrintedParses(p);
  }

  /** The next packet after a path was learned: direct over that path, unless the path has no hops. */
  ghost predicate GoesBack(contact: Contact, path: Data, raw: nat, payloadType: nat, payload: Data, p: Packet) {
    && Parse(ToBytes(p)) == Ok(p) && p.payload == payload && PayloadType(p.header) == payloadType % 16
    && p.path == path
    && RouteType(p.header) == (if path == [] then ROUTE_TYPE_FLOOD else ROUTE_TYPE_DIRECT)
    && (path == [] ==> p.pathLenRaw == 0)
    && (path != [] ==> (p.pathLenRaw == raw <==> contact.path != Some(path) || StoredRaw(contact) == raw))
  }

  /** The whole way round. A packet arrives over some path; its recipient returns that path in a PATH
      packet; the sender decodes and learns it; whatever the sender then sends parses back, and it goes out
      direct over exactly that path, unless the packet came from a direct neighbour: a path of no hops is
      stored but still means flooding. The length byte is the one that arrived too, unless the same path
      bytes were stored before under another one. */
  lemma PathComesBack(c: Crypto, data: Data, secret: Key, src: Key, dstHash: nat, ack: Data,
                      candidates: seq<Candidate>, k: nat, contact: Contact, payloadType: nat, payload: Data)
    requires Sound(c) && |ack| == 6 && WellRouted(contact)
    requires Parse(data).Ok?
    requires var q := Parse(data).value;
             var pathAck := Dm.BuildPathAck(c, secret, dstHash, src, q.path, q.pathLenRaw, ack);
             Dm.Identified(c, pathAck, candidates, k, src, secret)
    requires 1 <= |payload| <= MAX_PACKET_PAYLOAD
    ensures var q := Parse(data).value;
            var pathAck := Dm.BuildPathAck(c, secret, dstHash, src, q.path, q.pathLenRaw, ack);
            var dec := Dm.DecodePath(c, pathAck, dstHash, candidates);
            && 1 <= |pathAck| <= 84
            && dec.Some? && dec.value.ackHash == Some(ack[..4])
            && var learned := Learn(contact, dec.value);
               var p := PacketTo(RouteTo(Some(learned)), payloadType, payload);
               WellRouted(learned) && GoesBack(contact, q.path, q.pathLenRaw, payloadType, payload, p)
  {
    ParsedPrints(data);
    var q := Parse(data).value;
    Dm.PathRoundTrip(c, secret, src, dstHash, q.path, q.pathLenRaw, ack, candidates, k);
    Dm.PathAckFits(c, secret, dstHash, src, q.path, q.pathLenRaw, ack);
    var dec := Dm.PathReturn(src, src[0], q.path, q.pathLenRaw, Some(ack[..4]));
    LearnedRouteWorks(contact, dec, payloadType, payload);
  }

  lemma LearnedRouteWorks(contact: Contact, dec: Dm.PathReturn, payloadType: nat, payload: Data)
    requires WellRouted(contact) && Fits(dec.pathLenRaw, dec.path)
    requires 1 <= |payload| <= MAX_PACKET_PAYLOAD
    ensures var learned := Learn(contact, dec);
            var p := PacketTo(RouteTo(Some(learned)), payloadType, payload);
            WellRouted(learned) && GoesBack(contact, dec.path, dec.pathLenRaw, payloadType, payload, p)
  {
    LearningKeepsRoutes(contact, dec);
    if dec.path != [] {
      CountOfNonempty(dec.pathLenRaw, dec.path);
    }
    LearnedRouteIsTaught(contact, dec);
    var learned := Learn(contact, dec);
    RoutedPacketParses(Some(learned), payloadType, payload);
    RouteHeader(RouteTo(Some(learned)).kind, payloadType);
  }
}
