/** The coordinator keyspace: where user keys and the routing record live, and the
    translation of user ranges into it (`coordinatedKeys`). */
module Keys {
  import opened Wrappers
  import opened ByteStrings

  // "/__etcd_sharding/keys"
  const METADATA_STEM: Bytes :=
    [47, 95, 95, 101, 116, 99, 100, 95, 115, 104, 97, 114, 100, 105, 110, 103, 47, 107, 101, 121, 115]

  /** "/__etcd_sharding/keys/" */
  const METADATA_PREFIX: Bytes := METADATA_STEM + [47]

  /** "/__etcd_sharding/keys0", the first string above every metadata key */
  const METADATA_END: Bytes := METADATA_STEM + [48]

  /** "/__etcd_sharding/config" */
  const CONFIG_KEY: Bytes :=
    [47, 95, 95, 101, 116, 99, 100, 95, 115, 104, 97, 114, 100, 105, 110, 103, 47, 99, 111, 110, 102, 105, 103]

  /** "/__etcd_sharding/blobs/" */
  const BLOB_PREFIX: Bytes :=
    [47, 95, 95, 101, 116, 99, 100, 95, 115, 104, 97, 114, 100, 105, 110, 103, 47, 98, 108, 111, 98, 115, 47]

  /** The coordinator key of user key u. */
  function MetaKey(u: Bytes): Bytes
  {
    METADATA_PREFIX + u
  }

  predicate IsMetaKey(k: Bytes)
  {
    HasPrefix(k, METADATA_PREFIX)
  }

  /** The user key behind a coordinator key. */
  function UserKey(k: Bytes): Bytes
    requires IsMetaKey(k)
  {
    k[|METADATA_PREFIX|..]
  }

  /** The coordinator `key` and `range_end` for those of a user request. */
  function CoordinatedKeys(key: Bytes, end: Bytes): Result<(Bytes, Bytes), Status>
  {
    if key == [] then Err(InvalidArgument)
    else Ok((MetaKey(key), MetaEnd(end)))
  }

  function MetaEnd(end: Bytes): Bytes
  {
    if end == [] then [] else if end == NO_END then METADATA_END else METADATA_PREFIX + end
  }

  lemma MetaKeyRoundTrip(u: Bytes)
    ensures IsMetaKey(MetaKey(u)) && UserKey(MetaKey(u)) == u
  {
    assert (METADATA_PREFIX + u)[..|METADATA_PREFIX|] == METADATA_PREFIX;
    assert (METADATA_PREFIX + u)[|METADATA_PREFIX|..] == u;
  }

  lemma UserKeyRoundTrip(k: Bytes)
    requires IsMetaKey(k)
    ensures MetaKey(UserKey(k)) == k
  {
    assert k == k[..|METADATA_PREFIX|] + k[|METADATA_PREFIX|..];
  }

  lemma MetaKeyOrder(a: Bytes, b: Bytes)
    ensures Less(MetaKey(a), MetaKey(b)) <==> Less(a, b)
    ensures MetaKey(a) == MetaKey(b) <==> a == b
  {
    LessPrefix(METADATA_PREFIX, a, b);
    MetaKeyRoundTrip(a);
    MetaKeyRoundTrip(b);
  }

  /** A user key is in the user range exactly when its coordinator key is in the
      translated range, for every form of `range_end`. */
  lemma RangeEmbedding(key: Bytes, end: Bytes, u: Bytes)
    requires key != []
    ensures InRange(MetaKey(key), MetaEnd(end), MetaKey(u)) <==> InRange(key, end, u)
  {
    MetaKeyOrder(u, key);
    MetaKeyOrder(u, end);
    MetaKeyRoundTrip(u);
    PrefixEnd(METADATA_STEM, 47, MetaKey(u));
    assert |METADATA_STEM| > 0;
  }

  /** Conversely a translated range holds nothing but coordinator keys of
      non-empty user keys. */
  lemma RangeConfined(key: Bytes, end: Bytes, x: Bytes)
    requires key != [] && InRange(MetaKey(key), MetaEnd(end), x)
    ensures IsMetaKey(x) && UserKey(x) != [] && MetaKey(UserKey(x)) == x
    ensures InRange(key, end, UserKey(x))
  {
    assert |METADATA_STEM| > 0;
    if end == [] {
      MetaKeyRoundTrip(key);
    } else if end == NO_END {
      LessPrefix(METADATA_PREFIX, [], key);
      assert METADATA_PREFIX + [] == METADATA_PREFIX;
      if Less(x, METADATA_PREFIX) { LessTransitive(x, METADATA_PREFIX, MetaKey(key)); }
      PrefixEnd(METADATA_STEM, 47, x);
    } else {
      PrefixConvex(METADATA_PREFIX, key, end, x);
    }
    UserKeyRoundTrip(x);
    RangeEmbedding(key, end, UserKey(x));
  }

  lemma ConfigKeyIsNotMeta()
    ensures !IsMetaKey(CONFIG_KEY)
  {
    assert METADATA_PREFIX[17] == 107;
    assert CONFIG_KEY[17] == 99;
  }

  /** No user request can reach the routing record. */
  lemma ConfigKeyUnreachable(key: Bytes, end: Bytes)
    requires key != []
    ensures !InRange(MetaKey(key), MetaEnd(end), CONFIG_KEY)
  {
    ConfigKeyIsNotMeta();
    if InRange(MetaKey(key), MetaEnd(end), CONFIG_KEY) { RangeConfined(key, end, CONFIG_KEY); }
  }
}
