/** Redaction of JSON trees before they reach the audit log. */
module Redaction {
  import opened Prelude

  datatype Json =
    | Null
    | Bool(b: bool)
    | Number(n: real)
    | Text(s: string)
    | Array(items: seq<Json>)
    | Object(fields: map<string, Json>)

  const REDACTED: Json := Text("[REDACTED]")

  const SENSITIVE_FIELDS: set<string> := {
    "password", "password_hash", "jwt", "token", "authorization", "private_key", "certificate_pem",
    "certificates_pem", "pem_redacted", "public_chain_pem", "input_snapshot"
  }

  /** Go's lower-casing, as far as it can yield an ASCII letter: the Kelvin sign and the dotted capital I do too. */
  function Lower(c: char): char {
    if 'A' <= c <= 'Z' then (c as int + 32) as char
    else if c == '\U{212A}' then 'k'
    else if c == '\U{0130}' then 'i'
    else c
  }

  function ToLower(key: string): string {
    seq(|key|, i requires 0 <= i < |key| => Lower(key[i]))
  }

  predicate Sensitive(key: string) {
    ToLower(key) in SENSITIVE_FIELDS
  }

  /** The key spells the name, letter by letter, in whatever case. */
  ghost predicate Spells(key: string, name: string) {
    |key| == |name| && forall i | 0 <= i < |key| ::
      || (key[i] == name[i] && !('A' <= key[i] <= 'Z'))
      || ('a' <= name[i] <= 'z' && key[i] as int == name[i] as int - 32)
      || (name[i] == 'k' && key[i] == '\U{212A}')
      || (name[i] == 'i' && key[i] == '\U{0130}')
  }

  lemma {:induction false} LowerSpells(key: string, name: string)
    requires forall i | 0 <= i < |name| :: !('A' <= name[i] <= 'Z') && name[i] as int < 0x80
    ensures ToLower(key) == name <==> Spells(key, name)
  {
    if Spells(key, name) {
      forall i | 0 <= i < |key| ensures Lower(key[i]) == name[i] {
      }
    }
    if ToLower(key) == name {
      forall i | 0 <= i < |key| ensures Lower(key[i]) == name[i] {
        assert ToLower(key)[i] == name[i];
      }
    }
  }

  /** A value is hidden under these eleven names, in any case, and under no other. */
  lemma {:induction false} HiddenNames(key: string)
    ensures RedactValue(key, Null) == Text("[REDACTED]")
       <==> || Spells(key, "password") || Spells(key, "password_hash") || Spells(key, "jwt") || Spells(key, "token")
            || Spells(key, "authorization") || Spells(key, "private_key") || Spells(key, "certificate_pem")
            || Spells(key, "certificates_pem") || Spells(key, "pem_redacted") || Spells(key, "public_chain_pem")
            || Spells(key, "input_snapshot")
    ensures forall v :: RedactValue(key, Null) == Text("[REDACTED]") ==> RedactValue(key, v) == Text("[REDACTED]")
  {
    LowerSpells(key, "password");
    LowerSpells(key, "password_hash");
    LowerSpells(key, "jwt");
    LowerSpells(key, "token");
    LowerSpells(key, "authorization");
    LowerSpells(key, "private_key");
    LowerSpells(key, "certificate_pem");
    LowerSpells(key, "certificates_pem");
    LowerSpells(key, "pem_redacted");
    LowerSpells(key, "public_chain_pem");
    LowerSpells(key, "input_snapshot");
  }

  function RedactValue(key: string, value: Json): Json
    decreases value
  {
    if Sensitive(key) then REDACTED
    else
      match value
      case Object(fields) => Object(map k | k in fields :: RedactValue(k, fields[k]))
      case Array(items) => Array(seq(|items|, i requires 0 <= i < |items| => RedactValue(key, items[i])))
      case _ => value
  }

  /** The two values differ only beneath sensitive keys. */
  ghost predicate SameOutside(key: string, v: Json, w: Json)
    decreases v
  {
    Sensitive(key) ||
    match v
    case Object(fields) =>
      w.Object? && w.fields.Keys == fields.Keys && forall k | k in fields :: SameOutside(k, fields[k], w.fields[k])
    case Array(items) =>
      w.Array? && |w.items| == |items| && forall i | 0 <= i < |items| :: SameOutside(key, items[i], w.items[i])
    case _ => v == w
  }

  /** Nothing beneath a sensitive key shows, and everything else does. */
  lemma {:induction false} RedactionShowsExactlyTheRest(key: string, v: Json, w: Json)
    ensures RedactValue(key, v) == RedactValue(key, w) <==> SameOutside(key, v, w)
    decreases v
  {
    if !Sensitive(key) {
      var r, q := RedactValue(key, v), RedactValue(key, w);
      match v
      case Object(fields) =>
        if w.Object? {
          forall k | k in fields && k in w.fields
            ensures RedactValue(k, fields[k]) == RedactValue(k, w.fields[k]) <==> SameOutside(k, fields[k], w.fields[k])
          {
            RedactionShowsExactlyTheRest(k, fields[k], w.fields[k]);
          }
          assert r.fields.Keys == fields.Keys && q.fields.Keys == w.fields.Keys;
          if r == q {
            forall k | k in fields ensures SameOutside(k, fields[k], w.fields[k]) {
              assert r.fields[k] == q.fields[k];
            }
          }
          if SameOutside(key, v, w) {
            assert r.fields == q.fields;
          }
        }
      case Array(items) =>
        if w.Array? {
          forall i | 0 <= i < |items| && i < |w.items|
            ensures RedactValue(key, items[i]) == RedactValue(key, w.items[i])
               <==> SameOutside(key, items[i], w.items[i])
          {
            RedactionShowsExactlyTheRest(key, items[i], w.items[i]);
          }
          if r == q {
            forall i | 0 <= i < |items| ensures SameOutside(key, items[i], w.items[i]) {
              assert r.items[i] == q.items[i];
            }
          }
          if SameOutside(key, v, w) {
            assert r.items == q.items;
          }
        }
      case _ =>
    }
  }

  lemma {:induction false} RedactionIsIdempotent(key: string, v: Json)
    ensures RedactValue(key, RedactValue(key, v)) == RedactValue(key, v)
    decreases v
  {
    if !Sensitive(key) {
      var r := RedactValue(key, v);
      match v
      case Object(fields) =>
        forall k | k in fields ensures RedactValue(k, RedactValue(k, fields[k])) == RedactValue(k, fields[k]) {
          RedactionIsIdempotent(k, fields[k]);
        }
        assert RedactValue(key, r).fields == r.fields;
      case Array(items) =>
        forall i | 0 <= i < |items| ensures RedactValue(key, RedactValue(key, items[i])) == RedactValue(key, items[i]) {
          RedactionIsIdempotent(key, items[i]);
        }
        assert RedactValue(key, r).items == r.items;
      case _ =>
    }
  }

  // ----- what is found at a position

  datatype Step = Field(key: string) | Index(i: nat)

  /** The subtree at a position and the key it stands under. */
  function At(key: string, v: Json, path: seq<Step>): Option<(string, Json)>
    decreases |path|
  {
    if path == [] then Some((key, v))
    else
      match path[0]
      case Field(k) => if v.Object? && k in v.fields then At(k, v.fields[k], path[1..]) else None
      case Index(i) => if v.Array? && i < |v.items| then At(key, v.items[i], path[1..]) else None
  }

  predicate Open(key: string, path: seq<Step>) {
    !Sensitive(key) && forall i | 0 <= i < |path| :: path[i].Field? ==> !Sensitive(path[i].key)
  }

  /** Along a path of ordinary keys positions survive, and a scalar found there is untouched. */
  lemma {:induction false} OpenPositionsSurvive(key: string, v: Json, path: seq<Step>)
    requires Open(key, path)
    ensures
      match At(key, v, path)
      case None => At(key, RedactValue(key, v), path).None?
      case Some((k, found)) => At(key, RedactValue(key, v), path) == Some((k, RedactValue(k, found))) && !Sensitive(k)
    decreases |path|
  {
    if path != [] {
      match path[0]
      case Field(k) =>
        assert !Sensitive(k);
        if v.Object? && k in v.fields {
          OpenPositionsSurvive(k, v.fields[k], path[1..]);
        }
      case Index(i) =>
        if v.Array? && i < |v.items| {
          OpenPositionsSurvive(key, v.items[i], path[1..]);
        }
    }
  }

  /** Below the first sensitive key there is nothing to find. */
  lemma {:induction false} NothingBelowSensitive(key: string, v: Json, path: seq<Step>, k: string, below: seq<Step>)
    requires Open(key, path) && Sensitive(k) && below != []
    ensures At(key, RedactValue(key, v), path + [Field(k)] + below).None?
    decreases |path|
  {
    var whole := path + [Field(k)] + below;
    if path == [] {
      assert whole[0] == Field(k) && whole[1..] == below;
    } else {
      assert whole[0] == path[0] && whole[1..] == path[1..] + [Field(k)] + below;
      match path[0]
      case Field(f) =>
        assert !Sensitive(f);
        if v.Object? && f in v.fields {
          NothingBelowSensitive(f, v.fields[f], path[1..], k, below);
        }
      case Index(i) =>
        if v.Array? && i < |v.items| {
          NothingBelowSensitive(key, v.items[i], path[1..], k, below);
        }
    }
  }
}
