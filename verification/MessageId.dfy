/** Gossip message ids: what is hashed, and what it tells apart. */
module MessageId {
  import opened Bytes
  import opened Gossip

  const VALID_SNAPPY: seq<byte> := [1, 0, 0, 0]
  const INVALID_SNAPPY: seq<byte> := [0, 0, 0, 0]

  function Sign(valid: bool): (s: seq<byte>)
    ensures |s| == 4
  {
    if valid then VALID_SNAPPY else INVALID_SNAPPY
  }

  /** Domain, topic length, topic, data. */
  function Preimage(valid: bool, topic: seq<byte>, data: seq<byte>): seq<byte> {
    Sign(valid) + LE(|topic|, 8) + topic + data
  }

  /** The domain and content a message is identified by. */
  function Content(s: Snappy, message: seq<byte>): (bool, seq<byte>) {
    match DecodeSnappy(s, message, MAX_GOSSIP)
    case None => (false, message)
    case Some(decoded) => (true, decoded)
  }

  method HashData(sha: seq<byte> -> seq<byte>, sign: seq<byte>, topic: seq<byte>,
      data: seq<byte>) returns (id: seq<byte>)
    requires forall x :: |sha(x)| >= 20
    ensures id == sha(sign + LE(|topic|, 8) + topic + data)[..20]
  {
    var result := [];
    result := result + sign;
    result := result + LE(|topic|, 8);
    result := result + topic;
    result := result + data;
    assert result == sign + LE(|topic|, 8) + topic + data;
    return sha(result)[..20];
  }

  /** The id is the first 20 bytes of the digest of the message's domain, topic and content. */
  method MsgId(s: Snappy, sha: seq<byte> -> seq<byte>, topic: seq<byte>, message: seq<byte>) returns (id: seq<byte>)
    requires forall x :: |sha(x)| >= 20
    ensures id == sha(Preimage(Content(s, message).0, topic, Content(s, message).1))[..20]
    ensures match DecodeSnappy(s, message, 10_485_760) {
              case Some(decoded) => id == sha([1, 0, 0, 0] + LE(|topic|, 8) + topic + decoded)[..20]
              case None => id == sha([0, 0, 0, 0] + LE(|topic|, 8) + topic + message)[..20]
            }
  {
    hide LE;
    var decoded := DecodeSnappy(s, message, MAX_GOSSIP);
    if decoded.None? {
      id := HashData(sha, INVALID_SNAPPY, topic, message);
    } else {
      id := HashData(sha, VALID_SNAPPY, topic, decoded.value);
    }
  }

  /** Different domain, topic or data, different preimage. */
  lemma PreimageInjective(v: bool, t: seq<byte>, d: seq<byte>, w: bool, u: seq<byte>, e: seq<byte>)
    requires |t| < TWO64 && |u| < TWO64
    ensures Preimage(v, t, d) == Preimage(w, u, e) <==> v == w && t == u && d == e
  {
    hide LE;
    if Preimage(v, t, d) == Preimage(w, u, e) {
      var p, q := Preimage(v, t, d), Preimage(w, u, e);
      assert p[0] == Sign(v)[0] && q[0] == Sign(w)[0];
      assert p[4..12] == LE(|t|, 8) && q[4..12] == LE(|u|, 8);
      Uint64Exact(|t|, LE(|t|, 8));
      Uint64Exact(|u|, LE(|u|, 8));
      assert p[12..12 + |t|] == t && q[12..12 + |u|] == u;
      assert p[12 + |t|..] == d && q[12 + |u|..] == e;
    }
  }

  /**
   * Two messages on one topic are hashed from the same bytes exactly when both decompress to the same content,
   * or neither decompresses and they are equal.
   */
  lemma SameIdExactly(s: Snappy, topic: seq<byte>, m: seq<byte>, n: seq<byte>)
    requires |topic| < TWO64
    ensures Preimage(Content(s, m).0, topic, Content(s, m).1) == Preimage(Content(s, n).0, topic, Content(s, n).1)
       <==> && DecodeSnappy(s, m, MAX_GOSSIP) == DecodeSnappy(s, n, MAX_GOSSIP)
            && (DecodeSnappy(s, m, MAX_GOSSIP).None? ==> m == n)
  {
    hide Preimage;
    PreimageInjective(Content(s, m).0, topic, Content(s, m).1, Content(s, n).0, topic, Content(s, n).1);
  }
}
