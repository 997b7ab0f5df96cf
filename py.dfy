/** The Python runtime facts the rest of the model relies on: tagged results,
    the exception classes the code tells apart, Python's int() conversion,
    string predicates, and pathlib's reading of a file name (name, stem, suffix). */
module Py {

  datatype Option<+T> = None | Some(value: T)

  /** A value or a raised exception; `:-` propagates the exception. */
  datatype Result<+T, +E> = Ok(value: T) | Err(error: E) {
    predicate IsFailure() { Err? }
    function PropagateFailure<U>(): Result<U, E>
      requires Err?
    {
      Err(error)
    }
    function Extract(): T
      requires Ok?
    {
      value
    }
  }

  /** The exception classes that the except clauses of the code distinguish. */
  datatype ExcClass =
    | OSError            // IOError is the same class in Python 3; PIL's UnidentifiedImageError derives from it
    | FileNotFoundError  // a subclass of OSError
    | ValueError
    | RuntimeError
    | ZeroDivisionError
    | KeyError
    | TypeError
    | OtherError(name: string)

  /** A raised exception: its class and the text `str(e)` gives. */
  datatype PyException = PyException(cls: ExcClass, text: string)

  /** `except OSError` (and `except IOError`) catches exactly these classes. */
  predicate IsOSError(c: ExcClass) {
    c == OSError || c == FileNotFoundError
  }

  function Abs(x: int): nat {
    if x < 0 then -x else x
  }

  lemma DivOfNat(x: nat, y: nat)
    requires y > 0
    ensures x / y >= 0
  {
  }

  /** Python's `int(a / b)` on the exact quotient: truncation toward zero. */
  function TruncDiv(a: int, b: int): (q: int)
    requires b != 0
    ensures Abs(q) == Abs(a) / Abs(b)
    ensures q > 0 ==> (a > 0) == (b > 0)
    ensures q < 0 ==> (a > 0) != (b > 0)
    ensures a >= 0 && b > 0 ==> q == a / b
  {
    var x, y := Abs(a), Abs(b);
    DivOfNat(x, y);
    var d := x / y;
    if (a >= 0) == (b > 0) then d else -d
  }

  /** Python's `int(x)` on an exact rational: truncation toward zero. */
  function Trunc(x: real): (r: int)
    ensures x >= 0.0 ==> r as real <= x < r as real + 1.0
    ensures x < 0.0 ==> r as real - 1.0 < x <= r as real
  {
    if x >= 0.0 then x.Floor else -((-x).Floor)
  }

  predicate StartsWith(s: string, prefix: string) {
    |prefix| <= |s| && s[..|prefix|] == prefix
  }

  predicate EndsWith(s: string, suffix: string) {
    |suffix| <= |s| && s[|s| - |suffix|..] == suffix
  }

  /** `sub` occurs in `s` starting at index `i`. */
  predicate OccursAt(s: string, sub: string, i: int) {
    0 <= i <= |s| - |sub| && s[i..i + |sub|] == sub
  }

  /** Python's `sub in s` on strings. */
  predicate Contains(s: string, sub: string) {
    exists i | 0 <= i <= |s| - |sub| :: OccursAt(s, sub, i)
  }

  function LowerChar(c: char): char {
    if 'A' <= c <= 'Z' then (c as int + 32) as char else c
  }

  /** `str.lower()` restricted to ASCII letters. */
  function Lower(s: string): (r: string)
    ensures |r| == |s|
    ensures forall i :: 0 <= i < |s| ==> r[i] == LowerChar(s[i])
  {
    seq(|s|, i requires 0 <= i < |s| => LowerChar(s[i]))
  }

  /** `s.rfind(c)`: the last index holding `c`, or -1. */
  function LastIndexOf(s: string, c: char): (i: int)
    ensures -1 <= i < |s|
    ensures i >= 0 ==> s[i] == c
    ensures forall j :: i < j < |s| ==> s[j] != c
  {
    if |s| == 0 then -1
    else if s[|s| - 1] == c then |s| - 1
    else LastIndexOf(s[..|s| - 1], c)
  }

  /** A path is its POSIX string form. */
  type Path = string

  /** `Path.name`: the last component. */
  function Name(p: Path): (n: string)
    ensures '/' !in n
    ensures EndsWith(p, n)
  {
    p[LastIndexOf(p, '/') + 1..]
  }

  /** The name is the whole of what follows the last separator: it starts the path or
      follows a '/'. */
  lemma NameIsLastComponent(p: Path)
    ensures |Name(p)| == |p| || p[|p| - |Name(p)| - 1] == '/'
  {
  }

  /** The dot that starts pathlib's suffix, when there is one. */
  function SuffixStart(name: string): (i: int)
  {
    var i := LastIndexOf(name, '.');
    if 0 < i < |name| - 1 then i else |name|
  }

  /** `PurePath.suffix`: from the last dot, unless that dot leads the name or ends it. */
  function Suffix(name: string): string {
    name[SuffixStart(name)..]
  }

  /** `PurePath.stem`: the name without its suffix. */
  function Stem(name: string): string {
    name[..SuffixStart(name)]
  }

  lemma StemAndSuffixSplitTheName(name: string)
    ensures Stem(name) + Suffix(name) == name
    ensures Suffix(name) == [] || (Suffix(name)[0] == '.' && '.' !in Suffix(name)[1..] && |Suffix(name)| >= 2)
    ensures |Stem(name)| > 0 || name == []
  {
    var i := SuffixStart(name);
    assert name[..i] + name[i..] == name;
    if i < |name| {
      forall k | 0 <= k < |name[i..][1..]| ensures name[i..][1..][k] != '.' {
        assert name[i..][1..][k] == name[i + 1 + k];
      }
    }
  }

  /** `dir / name` rendered as a string. */
  function Join(dir: Path, name: string): Path {
    dir + "/" + name
  }

  lemma JoinName(dir: Path, name: string)
    ensures '/' !in name ==> Name(dir + "/" + name) == name
  {
    var p := dir + "/" + name;
    if '/' !in name {
      var i := LastIndexOf(p, '/');
      assert p[|dir|] == '/';
      assert i == |dir|;
      assert p[i + 1..] == name;
    }
  }

  /** `Path.parent` of a path without a trailing slash. */
  function Parent(p: Path): Path {
    var i := LastIndexOf(p, '/');
    if i < 0 then "." else if i == 0 then "/" else p[..i]
  }

  /** The parent of `dir / name` is `dir`. */
  lemma ParentOfJoin(dir: Path, name: string)
    requires |dir| > 0 && '/' !in name
    ensures Parent(Join(dir, name)) == dir
  {
    var p := dir + "/" + name;
    JoinName(dir, name);
    var i := LastIndexOf(p, '/');
    assert p[|dir|] == '/';
    assert forall j :: |dir| < j < |p| ==> p[j] == name[j - |dir| - 1];
    assert i == |dir|;
    assert p[..i] == dir;
  }

  /** `sep.join(xs)`. */
  function JoinWith(sep: string, xs: seq<string>): string {
    if |xs| == 0 then ""
    else if |xs| == 1 then xs[0]
    else xs[0] + sep + JoinWith(sep, xs[1..])
  }

  function DigitChar(d: int): char
    requires 0 <= d < 10
  {
    "0123456789"[d]
  }

  /** `str(n)` for an integer. */
  function IntToString(n: int): (s: string)
    ensures |s| > 0
    decreases if n < 0 then 1 - n else n
  {
    if n < 0 then "-" + IntToString(-n)
    else if n < 10 then [DigitChar(n)]
    else IntToString(n / 10) + [DigitChar(n % 10)]
  }
}
