/** Removing secrets from logged JSON (server/auditlog/redact.go).

    Which field names are secret is a parameter of the statements; `IsSecret`
    below is the source's list. */
module Redaction {
  import opened Options

  datatype Json =
    | Null
    | Bool(b: bool)
    | Number(text: string)
    | Text(s: string)
    | Array(items: seq<Json>)
    | Object(fields: map<string, Json>)

  const PLACEHOLDER := "[redacted]"

  const SECRET_FIELDS := {
    "api_token", "auth", "auth_pass", "auth_password", "client_secret", "credential", "current_password",
    "key_seed", "new_password", "old_password", "passphrase", "password", "private_key", "proxy", "proxy_url",
    "secret", "token", "totp_secret"}

  predicate IsSecret(lower: string -> string, key: string) {
    lower(key) in SECRET_FIELDS
  }

  /** Which spelling of a name is used makes no difference. */
  lemma SpellingsAlike(lower: string -> string, a: string, b: string)
    requires lower(a) == lower(b)
    ensures IsSecret(lower, a) <==> IsSecret(lower, b)
  {}

  /** isSet. */
  predicate IsSet(v: Json) {
    match v
    case Null => false
    case Text(s) => s != ""
    case _ => true
  }

  /** The tree redactValue leaves behind. */
  function Redact(secret: string -> bool, v: Json): Json
    decreases v, 0
  {
    match v
    case Object(fields) => Object(map k | k in fields :: RedactField(secret, k, fields[k]))
    case Array(items) => Array(seq(|items|, i requires 0 <= i < |items| => Redact(secret, items[i])))
    case _ => v
  }

  function RedactField(secret: string -> bool, key: string, v: Json): Json
    decreases v, 1
  {
    if secret(key) && IsSet(v) then Text(PLACEHOLDER) else Redact(secret, v)
  }

  /** A secret field with something in it, at any depth. */
  ghost predicate HasSecret(secret: string -> bool, v: Json)
    decreases v, 0
  {
    match v
    case Object(fields) => exists k :: k in fields && FieldHasSecret(secret, k, fields[k])
    case Array(items) => exists i :: 0 <= i < |items| && HasSecret(secret, items[i])
    case _ => false
  }

  ghost predicate FieldHasSecret(secret: string -> bool, key: string, v: Json)
    decreases v, 1
  {
    (secret(key) && IsSet(v)) || HasSecret(secret, v)
  }

  /** redactValue: the fields of an object are visited in no particular order. */
  method RedactValue(secret: string -> bool, v: Json) returns (r: Json, changed: bool)
    ensures r == Redact(secret, v)
    ensures changed <==> HasSecret(secret, v)
    decreases v
  {
    match v
    case Object(fields) =>
      var typed, left := fields, fields.Keys;
      changed := false;
      while left != {}
        invariant left <= fields.Keys == typed.Keys
        invariant forall k :: k in fields ==>
                    typed[k] == if k in left then fields[k] else RedactField(secret, k, fields[k])
        invariant changed <==> exists k :: k in fields && k !in left && FieldHasSecret(secret, k, fields[k])
      {
        var key :| key in left;
        left := left - {key};
        var value := typed[key];
        if secret(key) && IsSet(value) {
          typed := typed[key := Text(PLACEHOLDER)];
          changed := true;
          continue;
        }
        var replaced, childChanged := RedactValue(secret, value);
        if childChanged {
          typed := typed[key := replaced];
          changed := true;
        } else {
          UnchangedIsSame(secret, value);
        }
      }
      r := Object(typed);
      assert typed == map k | k in fields :: RedactField(secret, k, fields[k]);
    case Array(items) =>
      var typed := items;
      changed := false;
      for i := 0 to |items|
        invariant |typed| == |items|
        invariant forall k :: 0 <= k < |items| ==> typed[k] == if k < i then Redact(secret, items[k]) else items[k]
        invariant changed <==> exists k :: 0 <= k < i && HasSecret(secret, items[k])
      {
        var replaced, childChanged := RedactValue(secret, items[i]);
        if childChanged {
          typed := typed[i := replaced];
          changed := true;
        } else {
          UnchangedIsSame(secret, items[i]);
        }
      }
      r := Array(typed);
    case _ =>
      return v, false;
  }

  /** Without a set secret field, the tree comes back identical. */
  lemma {:induction false} UnchangedIsSame(secret: string -> bool, v: Json)
    requires !HasSecret(secret, v)
    ensures Redact(secret, v) == v
  {
    match v
    case Object(fields) =>
      forall k | k in fields ensures RedactField(secret, k, fields[k]) == fields[k] {
        assert !FieldHasSecret(secret, k, fields[k]);
        UnchangedIsSame(secret, fields[k]);
      }
    case Array(items) =>
      forall i | 0 <= i < |items| ensures Redact(secret, items[i]) == items[i] {
        UnchangedIsSame(secret, items[i]);
      }
    case _ =>
  }

  /** The trees differ at most in what set secret fields hold. */
  ghost predicate SameButSecrets(secret: string -> bool, v: Json, w: Json)
    decreases v, 0
  {
    match (v, w)
    case (Object(f), Object(g)) => f.Keys == g.Keys && forall k :: k in f ==> SameField(secret, k, f[k], g[k])
    case (Array(a), Array(b)) => |a| == |b| && forall i :: 0 <= i < |a| ==> SameButSecrets(secret, a[i], b[i])
    case _ => v == w
  }

  ghost predicate SameField(secret: string -> bool, key: string, v: Json, w: Json)
    decreases v, 1
  {
    if secret(key) && IsSet(v) then IsSet(w) else !(secret(key) && IsSet(w)) && SameButSecrets(secret, v, w)
  }

  /** Two trees redact to the same tree exactly when they differ at most in what
      their set secret fields hold: nothing of a secret gets through, and nothing
      else is lost. */
  lemma {:induction false} RedactHidesExactlySecrets(secret: string -> bool, v: Json, w: Json)
    ensures Redact(secret, v) == Redact(secret, w) <==> SameButSecrets(secret, v, w)
    decreases v
  {
    match (v, w)
    case (Object(f), Object(g)) =>
      if f.Keys == g.Keys {
        forall k | k in f
          ensures RedactField(secret, k, f[k]) == RedactField(secret, k, g[k]) <==> SameField(secret, k, f[k], g[k])
        {
          RedactHidesExactlySecrets(secret, f[k], g[k]);
          SameAsFields(secret, k, f[k], g[k]);
        }
        SameObject(secret, f, g);
      } else {
        assert Redact(secret, v).fields.Keys == f.Keys && Redact(secret, w).fields.Keys == g.Keys;
      }
    case (Array(a), Array(b)) =>
      forall i | 0 <= i < |a| && i < |b|
        ensures Redact(secret, a[i]) == Redact(secret, b[i]) <==> SameButSecrets(secret, a[i], b[i])
      {
        RedactHidesExactlySecrets(secret, a[i], b[i]);
      }
      SameArray(secret, a, b);
    case _ =>
  }

  /** What holds of two values holds of them as fields of one name. */
  lemma SameAsFields(secret: string -> bool, key: string, v: Json, w: Json)
    requires Redact(secret, v) == Redact(secret, w) <==> SameButSecrets(secret, v, w)
    ensures RedactField(secret, key, v) == RedactField(secret, key, w) <==> SameField(secret, key, v, w)
  {}

  lemma SameObject(secret: string -> bool, f: map<string, Json>, g: map<string, Json>)
    requires f.Keys == g.Keys
    ensures Redact(secret, Object(f)) == Redact(secret, Object(g)) <==>
              forall k :: k in f ==> RedactField(secret, k, f[k]) == RedactField(secret, k, g[k])
  {
    var rf, rg := Redact(secret, Object(f)).fields, Redact(secret, Object(g)).fields;
    if rf == rg {
      forall k | k in f ensures RedactField(secret, k, f[k]) == RedactField(secret, k, g[k]) {
        assert rf[k] == rg[k];
      }
    }
  }

  lemma SameArray(secret: string -> bool, a: seq<Json>, b: seq<Json>)
    ensures Redact(secret, Array(a)) == Redact(secret, Array(b)) <==>
              |a| == |b| && forall i :: 0 <= i < |a| ==> Redact(secret, a[i]) == Redact(secret, b[i])
  {
    var ra, rb := Redact(secret, Array(a)).items, Redact(secret, Array(b)).items;
    if ra == rb {
      forall i | 0 <= i < |a| ensures Redact(secret, a[i]) == Redact(secret, b[i]) {
        assert ra[i] == rb[i];
      }
    }
  }

  lemma FieldIdempotent(secret: string -> bool, key: string, v: Json)
    requires Redact(secret, Redact(secret, v)) == Redact(secret, v)
    ensures RedactField(secret, key, RedactField(secret, key, v)) == RedactField(secret, key, v)
  {
    assert IsSet(Redact(secret, v)) == IsSet(v);
  }

  /** A field reads as redacted exactly when it was secret and neither null nor
      the empty string, or held the placeholder already. */
  lemma FieldIsPlaceholderIff(secret: string -> bool, key: string, v: Json)
    ensures RedactField(secret, key, v) == Text(PLACEHOLDER) <==>
              (secret(key) && v != Null && v != Text("")) || v == Text(PLACEHOLDER)
  {
    if v.Object? || v.Array? {
      assert Redact(secret, v) != Text(PLACEHOLDER);
    }
  }

  /** Redacting twice is redacting once. */
  lemma {:induction false} RedactIdempotent(secret: string -> bool, v: Json)
    ensures Redact(secret, Redact(secret, v)) == Redact(secret, v)
  {
    match v
    case Object(fields) =>
      var once := Redact(secret, v).fields;
      forall k | k in fields ensures RedactField(secret, k, once[k]) == once[k] {
        RedactIdempotent(secret, fields[k]);
        assert once[k] == RedactField(secret, k, fields[k]);
        FieldIdempotent(secret, k, fields[k]);
      }
    case Array(items) =>
      var once := Redact(secret, v).items;
      forall i | 0 <= i < |items| ensures Redact(secret, once[i]) == once[i] {
        RedactIdempotent(secret, items[i]);
      }
    case _ =>
  }

  /** Everything outside set secret fields is kept. */
  lemma RedactKeepsTheRest(secret: string -> bool, v: Json)
    ensures SameButSecrets(secret, v, Redact(secret, v))
  {
    RedactIdempotent(secret, v);
    RedactHidesExactlySecrets(secret, v, Redact(secret, v));
  }

  /** Every secret field, at any depth, is unset or holds the placeholder. */
  ghost predicate Clean(secret: string -> bool, v: Json)
    decreases v, 0
  {
    match v
    case Object(fields) => forall k :: k in fields ==> CleanField(secret, k, fields[k])
    case Array(items) => forall i :: 0 <= i < |items| ==> Clean(secret, items[i])
    case _ => true
  }

  ghost predicate CleanField(secret: string -> bool, key: string, v: Json)
    decreases v, 1
  {
    if secret(key) && IsSet(v) then v == Text(PLACEHOLDER) else Clean(secret, v)
  }

  lemma {:induction false} RedactIsClean(secret: string -> bool, v: Json)
    ensures Clean(secret, Redact(secret, v))
  {
    match v
    case Object(fields) =>
      forall k | k in fields ensures CleanField(secret, k, RedactField(secret, k, fields[k])) {
        RedactIsClean(secret, fields[k]);
      }
    case Array(items) =>
      forall i | 0 <= i < |items| ensures Clean(secret, Redact(secret, items[i])) {
        RedactIsClean(secret, items[i]);
      }
    case _ =>
  }

  /** redactSecrets, over any reading and writing of JSON. */
  method RedactSecrets(lower: string -> string, decode: string -> Option<Json>, encode: Json -> Option<string>,
                       raw: string)
    returns (out: string)
    ensures decode(raw).None? ==> out == raw
    ensures decode(raw).Some? ==>
              var secret := (key: string) => IsSecret(lower, key);
              var v := decode(raw).value;
              if HasSecret(secret, v) && encode(Redact(secret, v)).Some?
              then encode(Redact(secret, v)) == Some(out)
              else out == raw
  {
    var decoded := decode(raw);
    if decoded.None? {
      return raw;
    }
    var secret := (key: string) => IsSecret(lower, key);
    var redacted, changed := RedactValue(secret, decoded.value);
    if !changed {
      return raw;
    }
    var text := encode(redacted);
    if text.None? {
      return raw;
    }
    return text.value;
  }

  /** What redactSecrets writes reads back as the redacted tree, whether or not
      anything was replaced, when writing does not fail and reading undoes it. */
  lemma ReadsBackRedacted(secret: string -> bool, decode: string -> Option<Json>, encode: Json -> Option<string>,
                          raw: string, out: string)
    requires decode(raw).Some?
    requires forall v :: encode(v).Some? ==> decode(encode(v).value) == Some(v)
    requires if HasSecret(secret, decode(raw).value) then encode(Redact(secret, decode(raw).value)) == Some(out)
             else out == raw
    ensures decode(out) == Some(Redact(secret, decode(raw).value))
    ensures Clean(secret, decode(out).value)
  {
    var v := decode(raw).value;
    if !HasSecret(secret, v) {
      UnchangedIsSame(secret, v);
    }
    RedactIsClean(secret, v);
  }
}
