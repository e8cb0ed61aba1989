/** The small piece of the JavaScript runtime the store relies on: values,
    plain objects as string-keyed maps, property lookup, and the two ways of
    splitting a string that `select` uses. */
module Js {

  datatype Option<+T> = None | Some(value: T)

  /** A JavaScript value as far as the store can tell values apart.
      `undefined` and `null` are distinct values; an object or function is
      known only by its identity. Numbers are modelled as integers. */
  datatype Value =
    | Undefined
    | Null
    | Bool(b: bool)
    | Num(n: int)
    | Str(s: string)
    | Ref(id: nat)

  /** A plain object's own enumerable properties. A key whose value is
      `undefined` is still a key. */
  type State = map<string, Value>

  /** `obj[key]`: the property's value, or `undefined` when it is absent. */
  function Lookup(obj: State, key: string): (v: Value)
    ensures key in obj ==> v == obj[key]
    ensures key !in obj ==> v == Undefined
  {
    if key in obj then obj[key] else Undefined
  }

  /** A plain object that code mutates in place (`obj[i] = ...`). */
  class Obj {
    var props: State

    constructor (props: State)
      ensures this.props == props
    {
      this.props := props;
    }
  }

  /** The characters matched by the regular-expression class `\s`. */
  predicate IsSpace(c: char) {
    var n := c as int;
    (0x9 <= n <= 0xD) || n == 0x20 || n == 0xA0 || n == 0x1680 ||
    (0x2000 <= n <= 0x200A) || n == 0x2028 || n == 0x2029 || n == 0x202F ||
    n == 0x205F || n == 0x3000 || n == 0xFEFF
  }

  /** `s.split(sep)` for a one-character separator: the pieces between
      separators, so a string with n separators has n + 1 pieces. */
  function Split(s: string, sep: char): (parts: seq<string>)
    ensures |parts| >= 1
    ensures forall j :: 0 <= j < |parts| ==> sep !in parts[j]
    decreases |s|
  {
    if s == [] then [""]
    else
      var rest := Split(s[1..], sep);
      if s[0] == sep then [""] + rest
      else [[s[0]] + rest[0]] + rest[1..]
  }

  /** A string `a, b` (two names, a comma and a space) splits at the comma
      into `a` and ` b`. */
  lemma SplitExample(a: char, b: char)
    requires a != ',' && b != ','
    ensures Split([a, ',', ' ', b], ',') == [[a], [' ', b]]
  {
    var s := [a, ',', ' ', b];
    assert s[1..][1..][1..][1..] == [];
    assert Split("", ',') == [""];
    assert [b] + "" == [b] && [""][1..] == [];
    assert Split([b], ',') == [[b]];
    assert s[1..][1..][1..] == [b];
    assert [' '] + [b] == [' ', b] && [[b]][1..] == [];
    assert Split([' ', b], ',') == [[' ', b]];
    assert s[1..][1..] == [' ', b];
    assert Split([',', ' ', b], ',') == [[], [' ', b]];
    assert s[1..] == [',', ' ', b];
    var rest := Split(s[1..], ',');
    assert [a] + rest[0] == [a] && rest[1..] == [[' ', b]];
  }

  /** `parts.join(sep)`. */
  function Join(parts: seq<string>, sep: char): string
    decreases |parts|
  {
    if parts == [] then ""
    else if |parts| == 1 then parts[0]
    else parts[0] + [sep] + Join(parts[1..], sep)
  }

  /** Splitting loses nothing: joining the pieces with the separator gives
      back the string. */
  lemma {:induction false} JoinSplit(s: string, sep: char)
    ensures Join(Split(s, sep), sep) == s
    decreases |s|
  {
    if s != [] {
      JoinSplit(s[1..], sep);
      var rest := Split(s[1..], sep);
      if s[0] != sep {
        var parts := Split(s, sep);
        assert parts[1..] == rest[1..];
        if |rest| > 1 {
          assert rest == [rest[0]] + rest[1..];
          assert Join(rest, sep) == rest[0] + [sep] + Join(rest[1..], sep);
          assert s == [s[0]] + s[1..];
        } else {
          assert s == [s[0]] + s[1..];
        }
      } else {
        assert s == [sep] + s[1..];
      }
    }
  }

  /** The number of occurrences of `c` in `s`. */
  function Occurrences(s: string, c: char): nat
    decreases |s|
  {
    if s == [] then 0 else (if s[0] == c then 1 else 0) + Occurrences(s[1..], c)
  }

  /** One piece per separator, plus one. */
  lemma {:induction false} SplitLength(s: string, sep: char)
    ensures |Split(s, sep)| == Occurrences(s, sep) + 1
    decreases |s|
  {
    if s != [] {
      SplitLength(s[1..], sep);
    }
  }

  /** `s` without its leading `\s` characters. */
  function TrimStart(s: string): (r: string)
    ensures |r| <= |s| && r == s[|s| - |r|..]
    ensures forall j :: 0 <= j < |s| - |r| ==> IsSpace(s[j])
    ensures r == [] || !IsSpace(r[0])
    decreases |s|
  {
    if s != [] && IsSpace(s[0]) then TrimStart(s[1..]) else s
  }

  /** `s` without its trailing `\s` characters. */
  function TrimEnd(s: string): (r: string)
    ensures |r| <= |s| && r == s[..|r|]
    ensures forall j :: |r| <= j < |s| ==> IsSpace(s[j])
    ensures r == [] || !IsSpace(r[|r| - 1])
    decreases |s|
  {
    if s != [] && IsSpace(s[|s| - 1]) then TrimEnd(s[..|s| - 1]) else s
  }

  lemma {:induction false} TrimStartKeepsMembers(s: string)
    ensures forall c :: c in TrimStart(s) ==> c in s
    decreases |s|
  {
    if s != [] && IsSpace(s[0]) {
      TrimStartKeepsMembers(s[1..]);
    }
  }

  lemma {:induction false} TrimEndKeepsMembers(s: string)
    ensures forall c :: c in TrimEnd(s) ==> c in s
    decreases |s|
  {
    if s != [] && IsSpace(s[|s| - 1]) {
      TrimEndKeepsMembers(s[..|s| - 1]);
    }
  }

  /** `r` is `piece` cut at `a` and `b`, with only `\s` outside the cuts. */
  predicate CutBetween(piece: string, r: string, a: int, b: int) {
    0 <= a <= b <= |piece| && r == piece[a..b] &&
    (forall j :: 0 <= j < a ==> IsSpace(piece[j])) &&
    (forall j :: b <= j < |piece| ==> IsSpace(piece[j]))
  }

  /** `s` without its leading `\s` when `cut` holds, else `s` itself. */
  function TrimStartIf(s: string, cut: bool): (r: string)
    ensures |r| <= |s| && r == s[|s| - |r|..]
    ensures forall j :: 0 <= j < |s| - |r| ==> IsSpace(s[j])
    ensures cut && r != [] ==> !IsSpace(r[0])
    ensures !cut ==> |r| == |s|
  {
    if cut then TrimStart(s) else s
  }

  /** `s` without its trailing `\s` when `cut` holds, else `s` itself. */
  function TrimEndIf(s: string, cut: bool): (r: string)
    ensures |r| <= |s| && r == s[..|r|]
    ensures forall j :: |r| <= j < |s| ==> IsSpace(s[j])
    ensures cut && r != [] ==> !IsSpace(r[|r| - 1])
    ensures !cut ==> |r| == |s|
  {
    if cut then TrimEnd(s) else s
  }

  /** One piece of `SplitAtCommas`: the whitespace before the comma that
      ends it and after the comma that starts it is dropped, and nothing
      else: a side that touches no comma is not cut. */
  function TrimPiece(piece: string, afterComma: bool, beforeComma: bool): (r: string)
    ensures forall c :: c in r ==> c in piece
    ensures afterComma && r != [] ==> !IsSpace(r[0])
    ensures beforeComma && r != [] ==> !IsSpace(r[|r| - 1])
    ensures exists a, b ::
              CutBetween(piece, r, a, b) && (!afterComma ==> a == 0) && (!beforeComma ==> b == |piece|)
  {
    var inner := TrimEndIf(piece, beforeComma);
    var r := TrimStartIf(inner, afterComma);
    TrimPieceCut(piece, inner, r, afterComma, beforeComma);
    r
  }

  /** Trimming the end of `piece` and then the start is one cut of it. */
  lemma TrimPieceCut(piece: string, inner: string, r: string, afterComma: bool, beforeComma: bool)
    requires inner == TrimEndIf(piece, beforeComma) && r == TrimStartIf(inner, afterComma)
    ensures forall c :: c in r ==> c in piece
    ensures afterComma && r != [] ==> !IsSpace(r[0])
    ensures beforeComma && r != [] ==> !IsSpace(r[|r| - 1])
    ensures exists a, b ::
              CutBetween(piece, r, a, b) && (!afterComma ==> a == 0) && (!beforeComma ==> b == |piece|)
  {
    CutInner(piece, inner, r);
    var a, b := |inner| - |r|, |inner|;
    CutMembers(piece, r, a, b);
    TrimEdges(inner, r, afterComma, beforeComma);
    assert CutBetween(piece, r, a, b) && (!afterComma ==> a == 0) && (!beforeComma ==> b == |piece|);
  }

  /** A cut of `piece` holds only characters of `piece`. */
  lemma CutMembers(piece: string, r: string, a: int, b: int)
    requires CutBetween(piece, r, a, b)
    ensures forall c :: c in r ==> c in piece
  {
    forall c | c in r ensures c in piece {
      var k :| 0 <= k < |r| && r[k] == c;
      assert piece[a + k] == c;
    }
  }

  /** Whatever `TrimEnd` left at the end of `inner` survives `TrimStart`. */
  lemma TrimEdges(inner: string, r: string, afterComma: bool, beforeComma: bool)
    requires |r| <= |inner| && r == inner[|inner| - |r|..]
    requires afterComma && r != [] ==> !IsSpace(r[0])
    requires beforeComma && inner != [] ==> !IsSpace(inner[|inner| - 1])
    ensures beforeComma && r != [] ==> !IsSpace(r[|r| - 1])
  {
    if beforeComma && r != [] {
      assert r[|r| - 1] == inner[|inner| - 1];
    }
  }

  /** Cutting a prefix `inner` of `piece` and then a suffix of `inner`,
      each dropping only `\s`, is one cut of `piece`. */
  lemma CutInner(piece: string, inner: string, r: string)
    requires |inner| <= |piece| && inner == piece[..|inner|]
    requires forall j :: |inner| <= j < |piece| ==> IsSpace(piece[j])
    requires |r| <= |inner| && r == inner[|inner| - |r|..]
    requires forall j :: 0 <= j < |inner| - |r| ==> IsSpace(inner[j])
    ensures CutBetween(piece, r, |inner| - |r|, |inner|)
  {
    forall j | 0 <= j < |inner| - |r| ensures IsSpace(piece[j]) {
      assert piece[j] == inner[j];
    }
  }

  // `s.split(/\s*,\s*/)`: the pieces between commas, where the whitespace
  // touching each comma belongs to the separator. Whitespace at the very
  // start and the very end of `s` is kept.
  function SplitAtCommas(s: string): (names: seq<string>)
    ensures |names| == |Split(s, ',')|
    ensures forall j :: 0 <= j < |names| ==> ',' !in names[j]
    ensures forall j :: 0 < j < |names| && names[j] != [] ==> !IsSpace(names[j][0])
    ensures forall j :: 0 <= j < |names| - 1 && names[j] != [] ==> !IsSpace(names[j][|names[j]| - 1])
    ensures forall j :: 0 <= j < |names| ==> names[j] == TrimPiece(Split(s, ',')[j], 0 < j, j < |names| - 1)
  {
    var parts := Split(s, ',');
    var names := seq(|parts|, j requires 0 <= j < |parts| => TrimPiece(parts[j], 0 < j, j < |parts| - 1));
    TrimmedPieces(parts, names);
    names
  }

  /** What the pieces of `SplitAtCommas` inherit from `TrimPiece`. */
  lemma TrimmedPieces(parts: seq<string>, names: seq<string>)
    requires forall j :: 0 <= j < |parts| ==> ',' !in parts[j]
    requires |names| == |parts|
    requires forall j :: 0 <= j < |names| ==> names[j] == TrimPiece(parts[j], 0 < j, j < |names| - 1)
    ensures forall j :: 0 <= j < |names| ==> ',' !in names[j]
    ensures forall j :: 0 < j < |names| && names[j] != [] ==> !IsSpace(names[j][0])
    ensures forall j :: 0 <= j < |names| - 1 && names[j] != [] ==> !IsSpace(names[j][|names[j]| - 1])
  {
    forall j | 0 <= j < |names|
      ensures ',' !in names[j]
      ensures 0 < j && names[j] != [] ==> !IsSpace(names[j][0])
      ensures j < |names| - 1 && names[j] != [] ==> !IsSpace(names[j][|names[j]| - 1])
    {
      var r := TrimPiece(parts[j], 0 < j, j < |names| - 1);
      assert names[j] == r;
    }
  }

  /** Every character of a piece of `Split` is a character of the string. */
  lemma {:induction false} SplitMembers(s: string, sep: char)
    ensures forall j, c :: 0 <= j < |Split(s, sep)| && c in Split(s, sep)[j] ==> c in s
    decreases |s|
  {
    if s != [] {
      SplitMembers(s[1..], sep);
      var rest := Split(s[1..], sep);
      var parts := Split(s, sep);
      forall j, c | 0 <= j < |parts| && c in parts[j] ensures c in s {
        if c != s[0] {
          if s[0] == sep {
            assert parts[j] == rest[j - 1];
          } else if j == 0 {
            assert parts[0] == [s[0]] + rest[0];
          } else {
            assert parts[j] == rest[j];
          }
          assert c in s[1..];
          var k :| 0 <= k < |s[1..]| && s[1..][k] == c;
          assert s[k + 1] == c;
        }
      }
    }
  }

  /** A piece without whitespace comes through `TrimPiece` unchanged. */
  lemma TrimPieceKeepsPlain(piece: string, afterComma: bool, beforeComma: bool)
    requires forall j :: 0 <= j < |piece| ==> !IsSpace(piece[j])
    ensures TrimPiece(piece, afterComma, beforeComma) == piece
  {
    var r := TrimPiece(piece, afterComma, beforeComma);
    var a, b :| CutBetween(piece, r, a, b);
    assert a == 0 && b == |piece|;
    assert piece[0..|piece|] == piece;
  }

  // When the string holds no whitespace at all, `split(/\s*,\s*/)` and
  // `split(',')` agree: every name between commas is kept as written.
  lemma SplitAtCommasPlain(s: string)
    requires forall j :: 0 <= j < |s| ==> !IsSpace(s[j])
    ensures SplitAtCommas(s) == Split(s, ',')
  {
    var parts := Split(s, ',');
    var names := SplitAtCommas(s);
    SplitMembers(s, ',');
    forall j | 0 <= j < |parts| ensures names[j] == parts[j] {
      var piece := parts[j];
      forall k | 0 <= k < |piece| ensures !IsSpace(piece[k]) {
        assert piece[k] in piece;
        assert piece[k] in s;
      }
      TrimPieceKeepsPlain(piece, 0 < j, j < |parts| - 1);
    }
  }
}
