/**
 Turning a statement and its parameters into one request: Bind, Execute and Sync written
 into the client's shared buffer.
 */
module Query {
  import opened Bytes
  import opened Wrappers
  import opened Types
  import opened Backend
  import opened Frontend

  /** What `to_sql_checked` and `encode_format` give for one parameter and one type. */
  datatype Outcome = WrongType | ConversionFailed | Encoded(format: i16, value: Option<seq<byte>>)

  type ToSql = Type -> Outcome

  /** `codecTypes[i]` is the alias a parameter of `params[i]` may be encoded under instead. */
  datatype Statement = Statement(name: seq<byte>, params: seq<Type>, codecTypes: seq<Option<Type>>)

  datatype Error = Parameters(given: nat, expected: nat) | Conversion(index: nat) | Message(cause: EncodeError)

  function EncodeParam(param: ToSql, original: Type, codec: Option<Type>): Outcome {
    var first := param(original);
    if first.WrongType? && codec.Some? && !param(codec.value).WrongType? then param(codec.value) else first
  }

  predicate ValidStatement(s: Statement) {
    |s.codecTypes| == |s.params|
  }

  // The outcomes of all the parameters, each under its own type or alias.
  function Outcomes(s: Statement, params: seq<ToSql>): (r: seq<Outcome>)
    requires ValidStatement(s) && |params| == |s.params|
    ensures |r| == |params|
  {
    seq(|params|, i requires 0 <= i < |params| => EncodeParam(params[i], s.params[i], s.codecTypes[i]))
  }

  predicate AllEncoded(os: seq<Outcome>) {
    forall i :: 0 <= i < |os| ==> os[i].Encoded?
  }

  /** The Bind message of a request: as many format codes as values, in parameter order. */
  function BindOf(portal: seq<byte>, name: seq<byte>, os: seq<Outcome>): FrontMsg
    requires AllEncoded(os)
  {
    Bind(portal, name,
         seq(|os|, i requires 0 <= i < |os| && os[i].Encoded? => os[i].format),
         seq(|os|, i requires 0 <= i < |os| && os[i].Encoded? => os[i].value),
         [1])
  }

  /** When a request can be encoded at all. */
  ghost predicate Accepted(s: Statement, params: seq<ToSql>, portal: seq<byte>)
    requires ValidStatement(s)
  {
    |params| == |s.params| && AllEncoded(Outcomes(s, params)) && Encodable(BindOf(portal, s.name, Outcomes(s, params)))
  }

  function Request(s: Statement, params: seq<ToSql>): seq<FrontMsg>
    requires ValidStatement(s) && |params| == |s.params| && AllEncoded(Outcomes(s, params))
  {
    [BindOf([], s.name, Outcomes(s, params)), Execute([], 0), Sync]
  }

  lemma TailEncodable(m: FrontMsg)
    requires m == Execute([], 0) || m == Sync
    ensures Encodable(m)
  {}

  // ---- The rule for one parameter ----

  /**
   The encoding a parameter may travel under: that of its own type; and only if its own type
   is the wrong one, that of its alias.
   */
  ghost predicate TravelsAs(param: ToSql, original: Type, codec: Option<Type>, format: i16, value: Option<seq<byte>>) {
    || param(original) == Encoded(format, value)
    || (param(original) == WrongType && codec.Some? && param(codec.value) == Encoded(format, value))
  }

  /** A failure under its own type is final; a wrong type needs an alias that encodes. */
  ghost predicate CannotTravel(param: ToSql, original: Type, codec: Option<Type>) {
    || param(original) == ConversionFailed
    || (param(original) == WrongType && (codec.None? || !param(codec.value).Encoded?))
  }

  /** Every parameter before `n` can travel. */
  ghost predicate TravelUpTo(s: Statement, params: seq<ToSql>, n: nat)
    requires ValidStatement(s) && n <= |params| == |s.params|
  {
    forall j :: 0 <= j < n ==> !CannotTravel(params[j], s.params[j], s.codecTypes[j])
  }

  /** A Bind with one format and one value for each parameter, each chosen by the rule. */
  ghost predicate CarriesAll(m: FrontMsg, s: Statement, params: seq<ToSql>)
    requires ValidStatement(s) && |params| == |s.params|
  {
    && m.Bind? && |m.formats| == |m.values| == |params|
    && forall i :: 0 <= i < |params| ==>
        TravelsAs(params[i], s.params[i], s.codecTypes[i], m.formats[i], m.values[i])
  }

  /**
   Which error a request is refused with: the count of its parameters, else the first that
   cannot travel, else whatever keeps the message from being written.
   */
  ghost predicate FailsAsTold(s: Statement, params: seq<ToSql>, r: Result<(), Error>)
    requires ValidStatement(s)
  {
    if |params| != |s.params| then r == Err(Parameters(|params|, |s.params|))
    else if TravelUpTo(s, params, |params|) then r.Ok? || r.error.Message?
    else
      && r.Err? && r.error.Conversion? && r.error.index < |params|
      && CannotTravel(params[r.error.index], s.params[r.error.index], s.codecTypes[r.error.index])
      && TravelUpTo(s, params, r.error.index)
  }

  lemma StoppedBefore(s: Statement, params: seq<ToSql>, i: nat)
    requires ValidStatement(s) && i < |params| == |s.params| && CannotTravel(params[i], s.params[i], s.codecTypes[i])
    ensures !TravelUpTo(s, params, |params|)
  {}

  lemma RuleOfOne(param: ToSql, original: Type, codec: Option<Type>)
    ensures var o := EncodeParam(param, original, codec);
      && (o.Encoded? <==> !CannotTravel(param, original, codec))
      && (o.Encoded? ==> TravelsAs(param, original, codec, o.format, o.value))
  {}

  lemma OutcomesTravel(s: Statement, params: seq<ToSql>, n: nat)
    requires ValidStatement(s) && n <= |params| == |s.params|
    ensures AllEncoded(Outcomes(s, params)[..n]) <==> TravelUpTo(s, params, n)
  {
    hide EncodeParam, CannotTravel;
    var os := Outcomes(s, params);
    forall j | 0 <= j < n
      ensures os[..n][j].Encoded? <==> !CannotTravel(params[j], s.params[j], s.codecTypes[j])
    {
      RuleOfOne(params[j], s.params[j], s.codecTypes[j]);
    }
  }

  lemma BindCarriesAll(s: Statement, params: seq<ToSql>, portal: seq<byte>)
    requires ValidStatement(s) && |params| == |s.params| && AllEncoded(Outcomes(s, params))
    ensures CarriesAll(BindOf(portal, s.name, Outcomes(s, params)), s, params)
  {
    hide EncodeParam, TravelsAs;
    var os, m := Outcomes(s, params), BindOf(portal, s.name, Outcomes(s, params));
    forall i | 0 <= i < |params|
      ensures TravelsAs(params[i], s.params[i], s.codecTypes[i], m.formats[i], m.values[i])
    {
      RuleOfOne(params[i], s.params[i], s.codecTypes[i]);
      assert os[i].Encoded?;
    }
  }

  class InnerClient {
    const buffer: BytesMut

    constructor ()
      ensures buffer.data == [] && fresh(buffer)
    {
      buffer := new BytesMut();
    }

    /** Encodes the parameters one by one, stopping at the first that cannot travel. */
    method EncodeParams(s: Statement, params: seq<ToSql>) returns (r: Result<seq<Outcome>, Error>)
      requires ValidStatement(s) && |params| == |s.params|
      ensures r.Ok? ==> r.value == Outcomes(s, params) && AllEncoded(r.value)
      ensures r.Err? ==> r.error.Conversion? && r.error.index < |params|
      ensures r.Err? ==> !Outcomes(s, params)[r.error.index].Encoded?
      ensures r.Err? ==> AllEncoded(Outcomes(s, params)[..r.error.index])
      ensures r.Ok? ==> |r.value| == |params| && forall i :: 0 <= i < |params| ==>
        TravelsAs(params[i], s.params[i], s.codecTypes[i], r.value[i].format, r.value[i].value)
      ensures r.Err? ==>
        var i := r.error.index;
        CannotTravel(params[i], s.params[i], s.codecTypes[i]) && TravelUpTo(s, params, i)
    {
      hide EncodeParam, CannotTravel, TravelsAs;
      var encoded: seq<Outcome> := [];
      for i := 0 to |params|
        invariant encoded == Outcomes(s, params)[..i] && AllEncoded(encoded)
        invariant forall j :: 0 <= j < i ==>
          TravelsAs(params[j], s.params[j], s.codecTypes[j], encoded[j].format, encoded[j].value)
      {
        var o := EncodeParam(params[i], s.params[i], s.codecTypes[i]);
        RuleOfOne(params[i], s.params[i], s.codecTypes[i]);
        if !o.Encoded? {
          OutcomesTravel(s, params, i);
          return Err(Conversion(i));
        }
        encoded := encoded + [o];
      }
      return Ok(encoded);
    }

    method EncodeBind(s: Statement, params: seq<ToSql>, portal: seq<byte>) returns (r: Result<(), Error>)
      requires ValidStatement(s)
      modifies buffer
      ensures r.Ok? <==> Accepted(s, params, portal)
      ensures r.Ok? ==> buffer.data == old(buffer.data) + Wire(BindOf(portal, s.name, Outcomes(s, params)))
      ensures FailsAsTold(s, params, r)
      ensures old(buffer.data) <= buffer.data
    {
      hide Encodable, Wire, CannotTravel, TravelUpTo, EncodeParam;
      if |params| != |s.params| {
        return Err(Parameters(|params|, |s.params|));
      }
      var encoded := EncodeParams(s, params);
      if encoded.Err? {
        StoppedBefore(s, params, encoded.error.index);
        return Err(encoded.error);
      }
      assert Outcomes(s, params)[..|params|] == Outcomes(s, params);
      OutcomesTravel(s, params, |params|);
      var m := BindOf(portal, s.name, encoded.value);
      var w := WriteBind(m.portal, m.statement, m.formats, m.values, m.resultFormats, buffer);
      r := match w case Ok(_) => Ok(()) case Err(e) => Err(Message(e));
    }

    /**
     One request for a prepared statement. Whether or not it succeeds the shared buffer is
     empty again, and a success reads back as exactly the three messages.
     */
    method EncodeRequest(s: Statement, params: seq<ToSql>) returns (r: Result<seq<byte>, Error>)
      requires ValidStatement(s) && buffer.data == []
      modifies buffer
      ensures buffer.data == []
      ensures r.Ok? <==> Accepted(s, params, [])
      ensures r.Ok? ==> ReadAll(r.value) == Some(Request(s, params))
      ensures r.Ok? ==> |params| == |s.params|
      ensures r.Ok? ==>
        var ms := ReadAll(r.value);
        && ms.Some? && |ms.value| == 3 && CarriesAll(ms.value[0], s, params)
        && ms.value[0].portal == [] && ms.value[0].statement == s.name && ms.value[0].resultFormats == [1]
        && ms.value[1] == Execute([], 0) && ms.value[2] == Sync
      ensures FailsAsTold(s, params, match r case Ok(_) => Ok(()) case Err(e) => Err(e))
    {
      hide Encodable, Wire, ReadAll, WireAll, CarriesAll, EncodeParam, CannotTravel, TravelUpTo;
      r := EncodeRequestBody(s, params);
      buffer.Clear();
      if r.Ok? {
        BindCarriesAll(s, params, []);
        var ms := Request(s, params);
        TailEncodable(ms[1]);
        TailEncodable(ms[2]);
        StreamBack(ms);
        WireThree(ms[0], ms[1], ms[2]);
      }
    }

    // The closure handed to `with_buf`.
    method EncodeRequestBody(s: Statement, params: seq<ToSql>) returns (r: Result<seq<byte>, Error>)
      requires ValidStatement(s) && buffer.data == []
      modifies buffer
      ensures r.Ok? <==> Accepted(s, params, [])
      ensures FailsAsTold(s, params, match r case Ok(_) => Ok(()) case Err(e) => Err(e))
      ensures r.Ok? ==> r.value == Wire(BindOf([], s.name, Outcomes(s, params))) + Wire(Execute([], 0)) + Wire(Sync)
    {
      hide Encodable, Wire;
      var bound := EncodeBind(s, params, []);
      if bound.Err? {
        return Err(bound.error);
      }
      TailEncodable(Execute([], 0));
      var executed := WriteExecute([], 0, buffer);
      WriteEmpty(Sync, buffer);
      var bytes := buffer.Split();
      return Ok(bytes);
    }

    /** Preparing a statement: Parse, Describe and Sync. */
    method EncodePrepare(name: seq<byte>, query: seq<byte>, types: seq<u32>) returns (r: Result<seq<byte>, EncodeError>)
      requires buffer.data == []
      modifies buffer
      ensures buffer.data == []
      ensures r.Ok? <==> Encodable(Parse(name, query, types)) && Encodable(Describe('S' as byte, name))
      ensures r.Ok? ==> ReadAll(r.value) == Some([Parse(name, query, types), Describe('S' as byte, name), Sync])
    {
      hide Encodable, Wire, ReadAll, WireAll;
      var w := WriteParse(name, query, types, buffer);
      if w.Ok? {
        w := WriteDescribe('S' as byte, name, buffer);
      }
      if w.Err? {
        buffer.Clear();
        return Err(w.error);
      }
      WriteEmpty(Sync, buffer);
      var bytes := buffer.Split();
      var ms := [Parse(name, query, types), Describe('S' as byte, name), Sync];
      TailEncodable(Sync);
      StreamBack(ms);
      WireThree(ms[0], ms[1], ms[2]);
      assert bytes == WireAll(ms);
      return Ok(bytes);
    }

    /** A simple query, as `batch_execute` and the rollback of a dropped transaction send it. */
    method EncodeQuery(sql: seq<byte>) returns (r: Result<seq<byte>, EncodeError>)
      requires buffer.data == []
      modifies buffer
      ensures buffer.data == []
      ensures r.Ok? <==> Encodable(FrontMsg.Query(sql))
      ensures r.Ok? ==> ReadAll(r.value) == Some([FrontMsg.Query(sql)])
    {
      hide Encodable, Wire, ReadAll, WireAll;
      var w := WriteQuery(sql, buffer);
      if w.Err? {
        buffer.Clear();
        return Err(w.error);
      }
      var bytes := buffer.Split();
      StreamBack([FrontMsg.Query(sql)]);
      WireOne(FrontMsg.Query(sql));
      assert bytes == WireAll([FrontMsg.Query(sql)]);
      return Ok(bytes);
    }
  }
}
