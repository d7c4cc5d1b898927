/** The domain record of the plugin and the library calls the protocol
    depends on but that are not part of this model.
 */
module TitleModel {
  import opened Outcomes

  /** `java.util.UUID`: two 64-bit halves. */
  datatype Uuid = Uuid(mostSigBits: int, leastSigBits: int)

  /** `models/Title`: one owned title. `titleName` keeps its '&' and
      "#RRGGBB" markup verbatim; `obtainedAt` is in milliseconds. Equality
      is structural over all four fields, as Lombok's `@Data` generates. */
  datatype Title = Title(holder: Uuid, titleName: string, obtainedAt: int, equipped: bool)

  /** A holder's titles, keyed by title name. */
  type Collection = map<string, Title>

  /** Every key names its own record. */
  ghost predicate KeyedByName(m: Collection) {
    forall k :: k in m ==> m[k].titleName == k
  }

  /** Library calls the protocol makes: `UUID.toString`, `UUID.fromString`
      (which rejects malformed text) and Gson's encoding and decoding of a
      collection (decoding may fail). */
  datatype Codecs = Codecs(
    showUuid: Uuid -> string,
    parseUuid: string -> Option<Uuid>,
    encode: Collection -> string,
    decode: string -> Option<Collection>)

  /** What the protocol relies on from those calls: a printed UUID holds no
      ':' and parses back to itself, and decoding undoes encoding. */
  ghost predicate Wf(f: Codecs) {
    && (forall u :: ':' !in f.showUuid(u) && f.parseUuid(f.showUuid(u)) == Some(u))
    && (forall m :: f.decode(f.encode(m)) == Some(m))
  }

  /** Distinct holders print differently. */
  lemma ShowInjective(f: Codecs, u: Uuid, v: Uuid)
    requires Wf(f) && f.showUuid(u) == f.showUuid(v)
    ensures u == v
  {
    assert f.parseUuid(f.showUuid(u)) == Some(u);
    assert f.parseUuid(f.showUuid(v)) == Some(v);
  }
}
