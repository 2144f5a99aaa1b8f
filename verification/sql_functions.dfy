/**
 * The SQLite built-ins the retirement report relies on: NULL as an `Option`,
 * `coalesce`, the three-valued `in` and `not` of a `where` clause, and the
 * text functions `substr` and `instr` over `seq<char>`.
 */
module SqlFunctions {

  /** A nullable SQL value; `None` is NULL. */
  datatype Option<+T> = None | Some(value: T)

  /** `coalesce(v, d)`: the value when it is not NULL, `d` otherwise. */
  function Coalesce<T>(v: Option<T>, d: T): T
  {
    match v
    case Some(x) => x
    case None => d
  }

  /**
   * `v in (list)` for a list of non-NULL values, in SQL's three-valued logic
   * (`None` is unknown): false for an empty list, otherwise unknown when `v`
   * is NULL.
   */
  function InList<T(==)>(v: Option<T>, list: seq<T>): Option<bool>
  {
    if list == [] then Some(false)
    else
      match v
      case None => None
      case Some(x) => Some(x in list)
  }

  /** Three-valued `not`: unknown stays unknown. */
  function Not(b: Option<bool>): Option<bool>
  {
    match b
    case None => None
    case Some(t) => Some(!t)
  }

  /** A `where` clause keeps a row exactly when its condition is true, neither false nor unknown. */
  predicate Holds(b: Option<bool>)
  {
    b == Some(true)
  }

  function Min(a: int, b: int): int
  {
    if a <= b then a else b
  }

  /** The at most `count` characters of `s` that start at 0-based offset `from`. */
  function Window(s: string, from: nat, count: nat): string
  {
    s[Min(from, |s|)..Min(from + count, |s|)]
  }

  /**
   * SQLite's two-argument `substr(s, start)`. Positions count from 1; a
   * negative `start` counts back from the end, and a `start` of 0 behaves as
   * the position just before the first character.
   */
  function Substr(s: string, start: int): (r: string)
    ensures start >= 1 ==> r == s[Min(start - 1, |s|)..]
    ensures start == 0 ==> r == s
    ensures start < 0 ==> r == s[|s| - Min(-start, |s|)..]
  {
    var from := if start > 0 then start - 1
                else if start + |s| < 0 || start == 0 then 0
                else start + |s|;
    s[Min(from, |s|)..]
  }

  /**
   * SQLite's three-argument `substr(s, start, len)` for a non-negative length.
   * SQLite first normalises the 1-based `start` to an offset: a positive one
   * moves back by one, a negative one counts from the end (shortening the
   * window when it reaches past the front), and a `start` of 0 keeps offset 0
   * but takes one character fewer, since position 0 lies before the text.
   */
  function SubstrLen(s: string, start: int, len: nat): (r: string)
    ensures |r| <= len
    ensures start >= 1 ==> r == s[Min(start - 1, |s|)..Min(start - 1 + len, |s|)]
    ensures start == 0 && len >= 1 ==> r == s[..Min(len - 1, |s|)]
    ensures start == 0 && len == 0 ==> r == []
    ensures start < 0 && start + |s| >= 0 ==> r == s[start + |s|..Min(start + |s| + len, |s|)]
    ensures start < 0 && start + |s| < 0 ==> r == s[..Min(if len + start + |s| < 0 then 0 else len + start + |s|, |s|)]
  {
    var n := |s|;
    var from: nat := if start > 0 then start - 1 else if start < 0 && start + n >= 0 then start + n else 0;
    var count: nat :=
      if start > 0 then len
      else if start == 0 then (if len > 0 then len - 1 else 0)
      else if start + n >= 0 then len
      else if len + start + n < 0 then 0
      else len + start + n;
    Window(s, from, count)
  }

  /**
   * SQLite's `instr(h, c)` for a one-character needle: the 1-based position
   * of the first `c` in `h`, or 0 when `h` has none.
   */
  function Instr(h: string, c: char): (r: nat)
    ensures r <= |h|
    ensures r == 0 <==> c !in h
    ensures r > 0 ==> h[r - 1] == c && c !in h[..r - 1]
  {
    if |h| == 0 then 0
    else if h[0] == c then 1
    else
      var k := Instr(h[1..], c);
      if k == 0 then 0 else k + 1
  }
}
