/** Values shared by the agent and the server models. */
module Data {

  datatype Option<+T> = None | Some(value: T)

  /** A parsed JSON value.  Events, log records and envelopes are `Obj` values. */
  datatype Json =
    | Null
    | Bool(b: bool)
    | Num(n: int)
    | Str(s: string)
    | Arr(items: seq<Json>)
    | Obj(fields: map<string, Json>)

  /** `fields.get(key, "")`, for a field that holds a string when it is present. */
  function Text(fields: map<string, Json>, key: string): string {
    if key in fields && fields[key].Str? then fields[key].s else ""
  }

  /** `event.get(key, "")` on an event. */
  function Field(event: Json, key: string): string {
    if event.Obj? then Text(event.fields, key) else ""
  }

  /** `int(event.get(key, 0))` on an event. */
  function Amount(event: Json, key: string): int {
    if event.Obj? && key in event.fields && event.fields[key].Num? then event.fields[key].n else 0
  }

  function Min(a: nat, b: nat): nat {
    if a < b then a else b
  }

  /** What is left after removing the first `n` of `q`, or all of `q` when there are fewer. */
  function Drop<T>(q: seq<T>, n: nat): seq<T> {
    q[Min(n, |q|)..]
  }

  /** The first `n` of `q`, or all of `q` when there are fewer. */
  function Take<T>(q: seq<T>, n: nat): seq<T> {
    q[..Min(n, |q|)]
  }

  /** The same value `n` times. */
  function Repeat<T>(n: nat, x: T): (xs: seq<T>)
    ensures |xs| == n && forall i :: 0 <= i < n ==> xs[i] == x
  {
    seq(n, _ => x)
  }

  /** What precedes the first colon; all of `s` without one. */
  function BeforeColon(s: string): string {
    if s == "" || s[0] == ':' then "" else [s[0]] + BeforeColon(s[1..])
  }

  /** What follows the first colon; nothing without one. */
  function AfterColon(s: string): string {
    if s == "" then "" else if s[0] == ':' then s[1..] else AfterColon(s[1..])
  }

  lemma {:induction false} FirstColon(before: string, after: string)
    requires ':' !in before
    ensures BeforeColon(before + ":" + after) == before
    ensures AfterColon(before + ":" + after) == after
  {
    var s := before + ":" + after;
    if before == "" {
      assert s == ":" + after;
    } else {
      assert s[1..] == before[1..] + ":" + after && s[0] == before[0];
      FirstColon(before[1..], after);
    }
  }
}
