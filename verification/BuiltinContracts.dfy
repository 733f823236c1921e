/** The built-in contract in which fields rest on one another, as
    internal/service/contracts/database-server.json declares it. */
module BuiltinContracts {
  import opened Basics
  import opened Contracts

  function Text(name: string, secret: bool): Field {
    Field(name, KIND_STRING, true, secret, Null, [], None, None, None, None)
  }

  const ENGINE := Field("engine", KIND_ENUM, true, false, Str("postgresql"), ["postgresql", "mysql"], None, None,
    None, None)

  const DRIVER := Text("driver", false).(
    derived := Some(Derivation("engine",
      map["postgresql" := "org.postgresql.Driver", "mysql" := "com.mysql.cj.jdbc.Driver"])))

  const PORT := Field("port", KIND_NUMBER, true, false, Num(5432.0), [], Some(1.0), Some(65535.0), None, None)

  const SSL_MODE := Field("sslMode", KIND_ENUM, false, false, Str("prefer"),
    ["prefer", "require", "verify-ca", "verify-full", "disable"],
                          None, None, Some(Condition("engine", "postgresql")), None)

  const TLS := Field("tls", KIND_ENUM, false, false, Null, ["false", "preferred", "true", "skip-verify"],
                     None, None, Some(Condition("engine", "mysql")), None)

  const DATABASE_SERVER := Descriptor("database-server", true,
                                      [ENGINE, DRIVER, Text("host", false), PORT, Text("dbName", false),
                                       Text("username", true), Text("password", true), SSL_MODE, TLS])

  lemma DatabaseServerHasNames()
    ensures UniqueNames(DATABASE_SERVER.fields)
  {
    var fields := DATABASE_SERVER.fields;
    assert fields[0].name == "engine" && fields[1].name == "driver" && fields[2].name == "host";
    assert fields[3].name == "port" && fields[4].name == "dbName" && fields[5].name == "username";
    assert fields[6].name == "password" && fields[7].name == "sslMode" && fields[8].name == "tls";
    assert "engine"[0] == 'e' && "driver"[0] == 'd' && "dbName"[0] == 'd' && "driver"[1] == 'r' && "dbName"[1] == 'b';
    assert "host"[0] == 'h' && "username"[0] == 'u' && "sslMode"[0] == 's' && "tls"[0] == 't';
    assert "port"[0] == 'p' && "password"[0] == 'p' && |"port"| == 4 && |"password"| == 8;
  }

  /** Fields that rest on nothing but the first one, which is no credential. */
  lemma RestingOnTheFirstIsEditable(fields: seq<Field>)
    requires fields != [] && UniqueNames(fields)
    requires forall i :: 0 <= i < |fields|
                         ==> fields[i].name != SECRET_REF && (fields[i].secret ==> fields[i].derived.None?)
    requires forall i :: 0 < i < |fields| ==> fields[i].Sources() <= {fields[0].name}
    requires fields[0].Sources() == {} && !fields[0].secret
    ensures Editable(fields)
  {
    forall i, j | 0 <= i < |fields| && 0 <= j < |fields| && (i <= j || fields[j].secret)
      ensures fields[j].name !in fields[i].Sources()
    {
      if j > 0 {
        assert fields[j].name != fields[0].name;
      }
    }
  }

  lemma DatabaseServerRestsOnItsEngine(i: nat)
    requires i < |DATABASE_SERVER.fields|
    ensures DATABASE_SERVER.fields[i].Sources() <= {"engine"}
    ensures i == 0 ==> DATABASE_SERVER.fields[i].Sources() == {}
    ensures DATABASE_SERVER.fields[i].secret ==> DATABASE_SERVER.fields[i].derived.None?
  {
  }

  lemma DatabaseServerFieldIsKnown(i: nat)
    requires i < |DATABASE_SERVER.fields|
    ensures DATABASE_SERVER.fields[i].name != "" && DATABASE_SERVER.fields[i].name != SECRET_REF
    ensures KnownKind(DATABASE_SERVER.fields[i])
  {
    assert SECRET_REF[0] == 's' && |SECRET_REF| == 9;
  }

  /** The built-in contract is loadable and meets what the read-then-edit round trip
      asks of a contract: one pass normalizes it and nothing rests on a credential. */
  lemma DatabaseServerIsEditable()
    ensures Loadable(DATABASE_SERVER) && Editable(DATABASE_SERVER.fields)
  {
    DatabaseServerHasNames();
    var fields := DATABASE_SERVER.fields;
    forall i | 0 <= i < |fields|
      ensures fields[i].Sources() <= {fields[0].name} && (i == 0 ==> fields[i].Sources() == {})
      ensures fields[i].secret ==> fields[i].derived.None?
      ensures fields[i].name != "" && fields[i].name != SECRET_REF && KnownKind(fields[i])
    {
      DatabaseServerRestsOnItsEngine(i);
      DatabaseServerFieldIsKnown(i);
    }
    RestingOnTheFirstIsEditable(fields);
  }

  /** The engine decides: its driver, whatever was submitted for one, and only its
      own TLS mode. */
  lemma EngineDecidesTheRest(values: Values)
    requires "engine" in values
    ensures var out := Normalized(DATABASE_SERVER.fields, values);
            && (values["engine"] == Str("mysql") ==>
                  "sslMode" !in out && Lookup(out, "driver") == Some(Str("com.mysql.cj.jdbc.Driver")))
            && (values["engine"] == Str("postgresql") ==>
                  "tls" !in out && Lookup(out, "driver") == Some(Str("org.postgresql.Driver")))
  {
    var fields := DATABASE_SERVER.fields;
    DatabaseServerIsEditable();
    assert fields[0] == ENGINE && fields[1] == DRIVER && fields[7] == SSL_MODE && fields[8] == TLS;
    NormalizedFieldsAreSettled(fields, values, ENGINE);
    NormalizedFieldsAreSettled(fields, values, DRIVER);
    NormalizedFieldsAreSettled(fields, values, SSL_MODE);
    NormalizedFieldsAreSettled(fields, values, TLS);
    EngineDecides(Normalized(fields, values));
  }

  /** What the fields want of values with an engine. */
  lemma EngineDecides(out: Values)
    requires "engine" in out
    ensures out["engine"] == Str("mysql") ==>
              !SSL_MODE.Applies(out) && DRIVER.derived.value.table["mysql"] == "com.mysql.cj.jdbc.Driver"
    ensures out["engine"] == Str("postgresql") ==>
              !TLS.Applies(out) && DRIVER.derived.value.table["postgresql"] == "org.postgresql.Driver"
  {
    assert "mysql"[0] != "postgresql"[0];
  }
}
