/** Pieces of JavaScript semantics that several parts of the application rely on. */
module Js {

  datatype Option<T> = None | Some(value: T)

  /** What a database query hands back: the error's message, or the rows. */
  datatype QueryResult<T> = QueryError(message: string) | Rows(rows: seq<T>)

  /** A database column that may hold SQL NULL. */
  datatype Nullable = Null | Str(value: string)

  /** How a template literal `${v}` renders a nullable column: NULL becomes the text "null". */
  function Interpolate(v: Nullable): (s: string)
    ensures v.Str? ==> s == v.value
    ensures s == "null" <==> v == Null || v == Str("null")
  {
    match v
    case Null => "null"
    case Str(s) => s
  }

  function Min(a: int, b: int): int { if a <= b then a else b }

  function Max(a: int, b: int): int { if a <= b then b else a }

  /** `s.slice(0, end)`: a negative `end` counts back from the end of `s`. */
  function SliceTo<T>(s: seq<T>, end: int): (r: seq<T>)
    ensures r <= s
    ensures 0 <= end ==> |r| == Min(end, |s|)
    ensures end < 0 ==> |r| == Max(|s| + end, 0)
  {
    if end >= |s| then s
    else if end >= 0 then s[..end]
    else if |s| + end >= 0 then s[..|s| + end]
    else []
  }

  ghost predicate OccursAt(s: string, sub: string, i: int)
  {
    0 <= i && i + |sub| <= |s| && s[i..i + |sub|] == sub
  }

  /** `s.includes(sub)`: whether `sub` occurs somewhere in `s`. */
  function Includes(s: string, sub: string): (b: bool)
    ensures b <==> exists i :: OccursAt(s, sub, i)
    decreases |s|
  {
    if sub <= s then
      assert OccursAt(s, sub, 0);
      true
    else if s == [] then
      assert forall i :: !OccursAt(s, sub, i);
      false
    else
      var rest := Includes(s[1..], sub);
      assert forall i :: OccursAt(s[1..], sub, i) <==> OccursAt(s, sub, i + 1);
      assert forall i :: OccursAt(s, sub, i) ==> i == 0 || OccursAt(s[1..], sub, i - 1);
      rest
  }

  /** Whatever surrounds it, a string that contains `sub` is found by `Includes`. */
  lemma IncludesInside(prefix: string, sub: string, suffix: string)
    ensures Includes(prefix + sub + suffix, sub)
  {
    var s := prefix + sub + suffix;
    assert s[|prefix|..|prefix| + |sub|] == sub;
    assert OccursAt(s, sub, |prefix|);
  }
}
