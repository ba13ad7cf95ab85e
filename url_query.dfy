/** The query string of the payment URL, as `URLSearchParams` holds it: an
    ordered list of (name, value) pairs. Percent-encoding is a parameter `enc`
    (and its inverse `dec`), so the model does not fix the byte-level encoding. */
module UrlQuery {
  import opened Types
  import opened Strings

  type Param = (string, string)

  /** `name=value` for every pair, each side encoded. */
  function Pairs(params: seq<Param>, enc: string -> string): (r: seq<string>)
    ensures |r| == |params|
  {
    seq(|params|, i requires 0 <= i < |params| => enc(params[i].0) + "=" + enc(params[i].1))
  }

  /** `params.toString()`: the encoded pairs joined by `&`. When the encoding
      never emits `&`, a non-empty list gives a non-empty query whose `&`
      pieces are exactly the encoded pairs, in order. */
  function Serialize(params: seq<Param>, enc: string -> string): (r: string)
    ensures (forall s :: '&' !in enc(s)) && |params| >= 1 ==> r != [] && Split(r, '&') == Pairs(params, enc)
  {
    JoinedPairsSplit(params, enc);
    Join(Pairs(params, enc), '&')
  }

  lemma JoinedPairsSplit(params: seq<Param>, enc: string -> string)
    ensures (forall s :: '&' !in enc(s)) && |params| >= 1 ==>
      var pairs := Pairs(params, enc);
      Join(pairs, '&') != [] && Split(Join(pairs, '&'), '&') == pairs
  {
    var pairs := Pairs(params, enc);
    if (forall s :: '&' !in enc(s)) && |params| >= 1 {
      forall i | 0 <= i < |pairs| ensures '&' !in pairs[i] {
        assert pairs[i] == enc(params[i].0) + "=" + enc(params[i].1);
      }
      SplitJoin(pairs, '&');
      assert '=' in pairs[0];
      if |pairs| > 1 {
        assert Join(pairs, '&') == pairs[0] + ['&'] + Join(pairs[1..], '&');
      }
    }
  }

  /** One `name=value` segment: the name runs to the first `=`, the value is the rest. */
  function ParsePair(segment: string, dec: string -> string): Param
  {
    var pieces := Split(segment, '=');
    (dec(pieces[0]), dec(Join(pieces[1..], '=')))
  }

  /** How a reader of the URL (the payment gateway) recovers the pairs. */
  function Parse(query: string, dec: string -> string): seq<Param>
  {
    if query == [] then []
    else
      var segments := Split(query, '&');
      seq(|segments|, i requires 0 <= i < |segments| => ParsePair(segments[i], dec))
  }

  /** `URLSearchParams.get`: the value of the first pair with that name. */
  function Get(params: seq<Param>, name: string): (r: Option<string>)
    ensures r.Some? <==> exists i :: 0 <= i < |params| && params[i].0 == name
    ensures r.Some? ==> exists i :: 0 <= i < |params| && params[i] == (name, r.value)
    decreases |params|
  {
    if params == [] then None
    else if params[0].0 == name then Some(params[0].1)
    else
      var r := Get(params[1..], name);
      assert forall i :: 1 <= i < |params| ==> params[i] == params[1..][i - 1];
      r
  }

  /** The first pair with a name decides what `Get` returns. */
  lemma {:induction false} GetFirst(params: seq<Param>, i: nat, name: string)
    requires i < |params| && params[i].0 == name
    requires forall j :: 0 <= j < i ==> params[j].0 != name
    ensures Get(params, name) == Some(params[i].1)
    decreases i
  {
    if i > 0 {
      GetFirst(params[1..], i - 1, name);
    }
  }

  lemma ParsePairOfEncoded(k: string, v: string, enc: string -> string, dec: string -> string)
    requires '=' !in enc(k) && '=' !in enc(v)
    requires dec(enc(k)) == k && dec(enc(v)) == v
    ensures ParsePair(enc(k) + "=" + enc(v), dec) == (k, v)
  {
    SplitAtSeparator(enc(k), enc(v), '=');
    SplitNoSeparator(enc(v), '=');
    assert Split(enc(k) + "=" + enc(v), '=') == [enc(k), enc(v)];
  }

  /** Parsing the serialized query gives back the pairs, for any encoding
      that never emits `&` or `=` and that `dec` inverts. */
  lemma ParseSerialize(params: seq<Param>, enc: string -> string, dec: string -> string)
    requires forall s :: '&' !in enc(s) && '=' !in enc(s)
    requires forall s :: dec(enc(s)) == s
    ensures Parse(Serialize(params, enc), dec) == params
  {
    if |params| >= 1 {
      var parsed := Parse(Serialize(params, enc), dec);
      forall i | 0 <= i < |params| ensures parsed[i] == params[i] {
        ParsePairOfEncoded(params[i].0, params[i].1, enc, dec);
      }
    }
  }
}
