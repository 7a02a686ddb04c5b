/**
 * The request parameters of the members endpoint: the comma-separated lock
 * list, rejected with status 422 when it is missing or empty, and the canvas
 * size, which falls back to 800 x 500 when a value is missing or empty.
 *
 * Query values are strings that may be absent. Fetching the locks, rendering
 * and writing the response are not part of this model.
 */
module Handler {

  datatype Option<T> = None | Some(value: T)

  /** A canvas dimension: the raw query text, or the built-in default. */
  datatype Dimension = Given(raw: string) | Default(value: nat)

  datatype Query = Query(locks: Option<string>, maxWidth: Option<string>, maxHeight: Option<string>)

  datatype Response =
    | Unprocessable(status: nat, message: string)
    | Accepted(locks: seq<string>, maxWidth: Dimension, maxHeight: Dimension)

  const RejectStatus: nat := 422
  const RejectMessage: string := "Please make sure you have `locks=0x123`"
  const DefaultWidth: nat := 800
  const DefaultHeight: nat := 500

  /**
   * JavaScript truthiness of a query value: a missing value and the empty
   * string are falsy, every other string is truthy.
   */
  predicate Truthy(q: Option<string>): (t: bool)
    ensures q.None? ==> !t
    ensures q == Some("") ==> !t
    ensures q.Some? && |q.value| >= 1 ==> t
  {
    q.Some? && q.value != ""
  }

  /** Occurrences of a character in a string. */
  function Count(s: string, c: char): nat {
    if s == [] then 0 else (if s[0] == c then 1 else 0) + Count(s[1..], c)
  }

  /**
   * The pieces of a string between separators, as String.prototype.split does
   * with a one-character separator: there is always one piece more than there
   * are separators, and no piece holds a separator.
   */
  function Split(s: string, sep: char): (parts: seq<string>)
    ensures |parts| == Count(s, sep) + 1
    ensures forall p :: p in parts ==> sep !in p
  {
    if s == [] then [""]
    else
      var rest := Split(s[1..], sep);
      if s[0] == sep then [""] + rest
      else [[s[0]] + rest[0]] + rest[1..]
  }

  /** The pieces glued back together with the separator between them. */
  function Join(parts: seq<string>, sep: char): string
    requires |parts| >= 1
  {
    if |parts| == 1 then parts[0] else parts[0] + [sep] + Join(parts[1..], sep)
  }

  lemma JoinConsHead(c: char, parts: seq<string>, sep: char)
    requires |parts| >= 1
    ensures Join([[c] + parts[0]] + parts[1..], sep) == [c] + Join(parts, sep)
  {
    var ps := [[c] + parts[0]] + parts[1..];
    assert ps[1..] == parts[1..];
  }

  /** Joining the pieces gives back the string that was split. */
  lemma {:induction false} JoinSplit(s: string, sep: char)
    ensures Join(Split(s, sep), sep) == s
  {
    if s != [] {
      var rest := Split(s[1..], sep);
      JoinSplit(s[1..], sep);
      if s[0] == sep {
        assert ([""] + rest)[1..] == rest;
      } else {
        JoinConsHead(s[0], rest, sep);
      }
      assert s == [s[0]] + s[1..];
    }
  }

  /** Splitting a join of separator-free pieces gives back the pieces. */
  lemma {:induction false} SplitJoin(parts: seq<string>, sep: char)
    requires |parts| >= 1
    requires forall p :: p in parts ==> sep !in p
    ensures Split(Join(parts, sep), sep) == parts
    decreases |parts|, |parts[0]|
  {
    var head := parts[0];
    if head == [] {
      if |parts| > 1 {
        var tail := Join(parts[1..], sep);
        assert Join(parts, sep) == [sep] + tail;
        assert ([sep] + tail)[1..] == tail;
        SplitJoin(parts[1..], sep);
        assert parts == [""] + parts[1..];
      }
    } else {
      var shorter := [head[1..]] + parts[1..];
      assert shorter[1..] == parts[1..];
      assert parts[0] in parts;
      assert head[0] != sep by { assert head[0] in head; }
      forall p | p in shorter ensures sep !in p {
        if p == head[1..] {
          assert forall i :: 0 <= i < |p| ==> p[i] == head[i + 1];
        } else {
          assert p in parts[1..];
        }
      }
      SplitJoin(shorter, sep);
      var s := Join(parts, sep);
      var t := Join(shorter, sep);
      assert head == [head[0]] + head[1..];
      JoinConsHead(head[0], shorter, sep);
      assert [head[0]] + shorter[0] == head;
      assert [[head[0]] + shorter[0]] + shorter[1..] == parts;
      assert s == [head[0]] + t;
      assert s[1..] == t;
      assert parts == [[s[0]] + Split(t, sep)[0]] + Split(t, sep)[1..];
    }
  }

  /** The value of `q || fallback` for a query value. */
  function OrDefault(q: Option<string>, fallback: nat): (d: Dimension)
    ensures d.Default? <==> !Truthy(q)
    ensures d.Default? ==> d.value == fallback
    ensures d.Given? ==> q == Some(d.raw) && d.raw != ""
  {
    if Truthy(q) then Given(q.value) else Default(fallback)
  }

  /**
   * The parameter handling of the endpoint. `locks` starts empty and is
   * replaced by the split query value when that value is truthy; an empty
   * list is rejected before anything else happens.
   */
  method Handle(query: Query) returns (resp: Response)
    ensures resp.Unprocessable? <==> !Truthy(query.locks)
    ensures resp.Unprocessable? ==> resp.status == RejectStatus && resp.message == RejectMessage
    ensures resp.Accepted? ==> |resp.locks| >= 1 && Join(resp.locks, ',') == query.locks.value
    ensures resp.Accepted? ==> resp.locks == Split(query.locks.value, ',')
    ensures resp.Accepted? ==> resp.maxWidth == OrDefault(query.maxWidth, DefaultWidth)
    ensures resp.Accepted? ==> resp.maxHeight == OrDefault(query.maxHeight, DefaultHeight)
  {
    var locks: seq<string> := [];
    if Truthy(query.locks) {
      locks := Split(query.locks.value, ',');
      JoinSplit(query.locks.value, ',');
    }
    if |locks| == 0 {
      return Unprocessable(RejectStatus, RejectMessage);
    }
    var maxWidth := OrDefault(query.maxWidth, DefaultWidth);
    var maxHeight := OrDefault(query.maxHeight, DefaultHeight);
    resp := Accepted(locks, maxWidth, maxHeight);
  }
}
