/**
 * The form body `HttpService.dataToBodyPublisher` builds: each entry as
 * encode(key) "=" encode(value), joined by '&', in the map's iteration order.
 * ParseForm is the reference reader that splits on '&', then on the first '=',
 * and decodes both sides; the round-trip lemmas tie the two together.
 */
module Forms {
  import opened Wrappers
  import opened Text
  import opened UrlEncoding
  import opened Params

  /** One `key=value` pair, key and value encoded independently from their `toString()`. */
  function EncodePair(e: (string, Value)): string
  {
    Encode(e.0) + "=" + Encode(e.1.ToString())
  }

  function Pairs(es: seq<(string, Value)>): seq<string>
  {
    seq(|es|, i requires 0 <= i < |es| => EncodePair(es[i]))
  }

  /** The body for a map whose iteration order is es. */
  function FormBody(es: seq<(string, Value)>): string
  {
    Join(Pairs(es), '&')
  }

  /** The body is empty exactly for the empty map: an empty map still yields a (blank) body. */
  lemma FormBodyEmpty(es: seq<(string, Value)>)
    ensures FormBody(es) == "" <==> es == []
  {
    var ps := Pairs(es);
    if ps != [] {
      JoinEnds(ps, '&');
      assert '=' in ps[0];
    } else {
      assert es == [];
    }
  }

  lemma PairsSnoc(es: seq<(string, Value)>, e: (string, Value))
    ensures Pairs(es + [e]) == Pairs(es) + [EncodePair(e)]
  {
  }

  /** Appending an entry appends its pair, after a separator unless the body was empty. */
  lemma FormBodySnoc(es: seq<(string, Value)>, e: (string, Value))
    ensures FormBody(es + [e]) == (if es == [] then "" else FormBody(es) + "&") + EncodePair(e)
  {
    PairsSnoc(es, e);
    if es == [] {
      assert Pairs(es + [e]) == [EncodePair(e)];
    } else {
      JoinSnoc(Pairs(es), EncodePair(e), '&');
    }
  }

  /** One turn of the builder loop: separator if needed, then the next pair. */
  lemma BuilderStep(es: seq<(string, Value)>, i: nat, builder: string, k: string, v: string)
    requires i < |es| && builder == FormBody(es[..i])
    requires k == Encode(es[i].0) && v == Encode(es[i].1.ToString())
    ensures (if |builder| > 0 then builder + "&" else builder) + k + "=" + v == FormBody(es[..i + 1])
  {
    var prefix, e := es[..i], es[i];
    assert es[..i + 1] == prefix + [e];
    FormBodyEmpty(prefix);
    FormBodySnoc(prefix, e);
    AppendPair(if |builder| > 0 then builder + "&" else builder, k, v, EncodePair(e));
  }

  /** Appending key, "=" and value one by one appends the pair they make. */
  lemma AppendPair(front: string, k: string, v: string, pair: string)
    requires pair == k + "=" + v
    ensures front + k + "=" + v == front + pair
  {
  }

  /** `dataToBodyPublisher`: the StringBuilder loop over the map's entries. */
  method DataToBodyPublisher(data: ParamMap) returns (body: string)
    ensures body == FormBody(data.entries)
  {
    var es := data.entries;
    var builder := "";
    var i := 0;
    while i < |es|
      invariant 0 <= i <= |es|
      invariant builder == FormBody(es[..i])
    {
      var entry := es[i];
      var key := Encode(entry.0);
      var value := Encode(entry.1.ToString());
      BuilderStep(es, i, builder, key, value);
      if |builder| > 0 {
        builder := builder + "&";
      }
      builder := builder + key + "=" + value;
      i := i + 1;
    }
    assert es[..i] == es;
    body := builder;
  }

  /** Splits one pair on its first '=' and decodes both sides. */
  function ParsePair(p: string): Option<(string, string)>
  {
    if '=' !in p then None
    else
      var i := IndexOf(p, '=');
      var key := Decode(p[..i]);
      var value := Decode(p[i + 1..]);
      if key.Some? && value.Some? then Some((key.value, value.value)) else None
  }

  function ParsePairs(ps: seq<string>): Option<seq<(string, string)>>
  {
    if ps == [] then Some([])
    else
      var first := ParsePair(ps[0]);
      var rest := ParsePairs(ps[1..]);
      if first.Some? && rest.Some? then Some([first.value] + rest.value) else None
  }

  /** Reads a form body back into its decoded key/value strings; the empty body is no pairs. */
  function ParseForm(body: string): Option<seq<(string, string)>>
  {
    if body == "" then Some([]) else ParsePairs(Split(body, '&'))
  }

  /** The entries with their values rendered by `toString()`. */
  function Stringified(es: seq<(string, Value)>): seq<(string, string)>
  {
    seq(|es|, i requires 0 <= i < |es| => (es[i].0, es[i].1.ToString()))
  }

  function Stringify(m: map<string, Value>): map<string, string>
  {
    map k | k in m :: m[k].ToString()
  }

  /**
   * body is a form encoding of m in some iteration order: it reads back as
   * distinct keys carrying exactly the rendered values of m.
   */
  predicate Encodes(body: string, m: map<string, Value>)
  {
    match ParseForm(body)
    case None => false
    case Some(ps) => DistinctKeys(ps) && ToMap(ps) == Stringify(m)
  }

  lemma PairHasNoAmpersand(e: (string, Value))
    ensures '&' !in EncodePair(e)
  {
    EncodeHasNoSeparators(e.0);
    EncodeHasNoSeparators(e.1.ToString());
  }

  lemma ParsePairRoundTrip(k: string, v: string)
    ensures ParsePair(Encode(k) + "=" + Encode(v)) == Some((k, v))
  {
    var a, b := Encode(k), Encode(v);
    var p := a + "=" + b;
    EncodeHasNoSeparators(k);
    assert p == a + ("=" + b);
    IndexOfAfterPrefix(a, "=" + b, '=');
    assert IndexOf("=" + b, '=') == 0;
    var i := IndexOf(p, '=');
    assert i == |a|;
    assert p[..i] == a;
    assert p[i + 1..] == b;
    DecodeEncode(k);
    DecodeEncode(v);
  }

  /** Pairs that each read back as the matching entry read back as the whole sequence. */
  lemma {:induction false} ParsePairsEach(ps: seq<string>, kvs: seq<(string, string)>)
    requires |ps| == |kvs|
    requires forall i :: 0 <= i < |ps| ==> ParsePair(ps[i]) == Some(kvs[i])
    ensures ParsePairs(ps) == Some(kvs)
  {
    if ps != [] {
      ParsePairsEach(ps[1..], kvs[1..]);
      assert kvs == [kvs[0]] + kvs[1..];
    }
  }

  lemma ParsePairsRoundTrip(es: seq<(string, Value)>)
    ensures ParsePairs(Pairs(es)) == Some(Stringified(es))
  {
    var ps, kvs := Pairs(es), Stringified(es);
    forall i | 0 <= i < |ps|
      ensures ParsePair(ps[i]) == Some(kvs[i])
    {
      ParsePairRoundTrip(es[i].0, es[i].1.ToString());
    }
    ParsePairsEach(ps, kvs);
  }

  /** Reading the body back gives every entry, key and rendered value, in iteration order. */
  lemma FormBodyRoundTrip(es: seq<(string, Value)>)
    ensures ParseForm(FormBody(es)) == Some(Stringified(es))
  {
    if es != [] {
      forall k | 0 <= k < |Pairs(es)| ensures '&' !in Pairs(es)[k] {
        PairHasNoAmpersand(es[k]);
      }
      SplitJoin(Pairs(es), '&');
      ParsePairsRoundTrip(es);
      FormBodyEmpty(es);
      assert Split(FormBody(es), '&') == Pairs(es);
    } else {
      assert Stringified(es) == [];
    }
  }

  /**
   * A non-empty map of N entries gives exactly N pairs, each encode(key) "=" encode(value),
   * joined by N - 1 separators, with none leading or trailing.
   */
  lemma FormBodyShape(es: seq<(string, Value)>)
    requires DistinctKeys(es) && es != []
    ensures var body := FormBody(es);
      && Split(body, '&') == Pairs(es)
      && |Pairs(es)| == |ToMap(es)|
      && (forall k :: 0 <= k < |es| ==> Split(body, '&')[k] == Encode(es[k].0) + "=" + Encode(es[k].1.ToString()))
      && Count(body, '&') == |ToMap(es)| - 1
      && |body| > 0 && body[0] != '&' && body[|body| - 1] != '&'
  {
    var ps := Pairs(es);
    forall k | 0 <= k < |ps| ensures '&' !in ps[k] {
      PairHasNoAmpersand(es[k]);
    }
    SplitJoin(ps, '&');
    JoinCount(ps, '&');
    JoinEnds(ps, '&');
    ToMapSize(es);
    FormBodyEmpty(es);
    var body := FormBody(es);
    assert '=' in ps[0] && '=' in ps[|ps| - 1];
    assert body[0] == ps[0][0];
    assert body[|body| - 1] == ps[|ps| - 1][|ps[|ps| - 1]| - 1];
  }

  lemma {:induction false} StringifiedMap(es: seq<(string, Value)>)
    ensures DistinctKeys(es) ==> DistinctKeys(Stringified(es))
    ensures ToMap(Stringified(es)) == Stringify(ToMap(es))
  {
    if es != [] {
      StringifiedMap(es[1..]);
      assert Stringified(es)[1..] == Stringified(es[1..]);
    }
  }

  /** The body built from a map with distinct keys encodes exactly that map. */
  lemma FormBodyEncodes(es: seq<(string, Value)>)
    requires DistinctKeys(es)
    ensures Encodes(FormBody(es), ToMap(es))
  {
    FormBodyRoundTrip(es);
    StringifiedMap(es);
  }

  /** Every key of the map appears in the body as one pair, encode(key) "=" encode(value). */
  lemma PairOfKey(es: seq<(string, Value)>, key: string) returns (k: nat)
    requires DistinctKeys(es) && key in ToMap(es)
    ensures k < |Split(FormBody(es), '&')|
    ensures Split(FormBody(es), '&')[k] == Encode(key) + "=" + Encode(ToMap(es)[key].ToString())
  {
    ToMapKeys(es, key);
    k :| 0 <= k < |es| && es[k].0 == key;
    ToMapAt(es, k);
    FormBodyShape(es);
  }
}
