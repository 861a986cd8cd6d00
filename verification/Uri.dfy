/** Percent decoding and the query string (src/request_handler.cpp). */
module Uri {
  import opened Text
  import opened Split

  datatype Option<T> = None | Some(value: T)

  predicate IsHex(c: char) {
    IsDigit(c) || 'a' <= c <= 'f' || 'A' <= c <= 'F'
  }

  function HexValue(c: char): (v: int)
    requires IsHex(c)
    ensures 0 <= v < 16
  {
    if IsDigit(c) then DigitValue(c)
    else if 'a' <= c then c as int - 'a' as int + 10
    else c as int - 'A' as int + 10
  }

  /** What the stream extraction `is >> std::hex >> value` of the GNU C++ library does with the
      two characters `a`, `b`: white space and a sign may come first, `0x` is a prefix, and a
      second character that is no digit is left unread. */
  function HexPair(a: char, b: char): Option<int> {
    if IsSpace(a) || a == '+' then if IsHex(b) then Some(HexValue(b)) else None
    else if a == '-' then if IsHex(b) then Some(-HexValue(b)) else None
    else if !IsHex(a) then None
    else if IsHex(b) then Some(16 * HexValue(a) + HexValue(b))
    else if a == '0' && (b == 'x' || b == 'X') then None
    else Some(HexValue(a))
  }

  /** `static_cast<char>`: the low eight bits. */
  function ByteOf(n: int): char {
    (n % 256) as char
  }

  function Prepend(s: string, t: Option<string>): Option<string> {
    if t == None then None else Some(s + t.value)
  }

  function Decoded(s: string): Option<string> {
    if s == "" then Some("")
    else if s[0] == '%' then
      if |s| < 3 then None
      else
        var v := HexPair(s[1], s[2]);
        if v == None then None else Prepend([ByteOf(v.value)], Decoded(s[3..]))
    else Prepend([if s[0] == '+' then ' ' else s[0]], Decoded(s[1..]))
  }

  lemma PrependTwice(a: string, b: string, t: Option<string>)
    ensures Prepend(a, Prepend(b, t)) == Prepend(a + b, t)
  {
    if t.Some? {
      assert a + (b + t.value) == a + b + t.value;
    }
  }

  lemma PrependNothing(t: Option<string>)
    ensures Prepend("", t) == t
  {
    if t.Some? {
      assert "" + t.value == t.value;
    }
  }

  method UrlDecode(input: string) returns (ok: bool, output: string)
    ensures ok == Decoded(input).Some?
    ensures ok ==> output == Decoded(input).value
  {
    output := "";
    var i := 0;
    assert input[0..] == input;
    PrependNothing(Decoded(input));
    while i < |input|
      invariant i <= |input|
      invariant Decoded(input) == Prepend(output, Decoded(input[i..]))
    {
      ghost var rest := input[i..];
      assert rest[1..] == input[i + 1..];
      if input[i] == '%' {
        if i + 3 <= |input| {
          assert rest[3..] == input[i + 3..];
          var value := HexPair(input[i + 1], input[i + 2]);
          if value.Some? {
            PrependTwice(output, [ByteOf(value.value)], Decoded(input[i + 3..]));
            output := output + [ByteOf(value.value)];
            i := i + 2;
          } else {
            return false, output;
          }
        } else {
          return false, output;
        }
      } else if input[i] == '+' {
        PrependTwice(output, " ", Decoded(input[i + 1..]));
        output := output + [' '];
      } else {
        PrependTwice(output, [input[i]], Decoded(input[i + 1..]));
        output := output + [input[i]];
      }
      i := i + 1;
    }
    return true, output;
  }

  /** One assignment of the query string; text without `=` is ignored, a later key wins. */
  function Assign(params: map<string, string>, pair: string): map<string, string> {
    var sep := Find(pair, "=", 0);
    if sep == NPOS then params else params[pair[..sep] := pair[sep + 1..]]
  }

  function AssignAll(params: map<string, string>, pairs: seq<string>): map<string, string> {
    if pairs == [] then params
    else Assign(AssignAll(params, pairs[..|pairs| - 1]), pairs[|pairs| - 1])
  }

  function Parameters(query: string): map<string, string> {
    if query == "" then map[] else AssignAll(map[], Tokens(query, "&"))
  }

  lemma AssignNone(pairs: seq<string>)
    ensures AssignAll(map[], pairs[..0]) == map[]
  {
  }

  lemma AssignNext(pairs: seq<string>, i: nat)
    requires i < |pairs|
    ensures AssignAll(map[], pairs[..i + 1]) == Assign(AssignAll(map[], pairs[..i]), pairs[i])
  {
    assert pairs[..i + 1][..i] == pairs[..i];
  }

  /** Fills a map that is empty at the call. `boost::split` at `&` is `str_split`. */
  method ParseQuery(query: string) returns (params: map<string, string>)
    ensures params == Parameters(query)
  {
    params := map[];
    if query == "" {
      return;
    }
    hide Find, Tokens, AssignAll;
    var vars := StrSplit(query, "&");
    AssignNone(vars);
    for i := 0 to |vars|
      invariant params == AssignAll(map[], vars[..i])
    {
      AssignNext(vars, i);
      var sep := Find(vars[i], "=", 0);
      if sep != NPOS {
        var key := vars[i][..sep];
        var value := vars[i][sep + 1..];
        params := params[key := value];
      }
    }
    assert vars[..|vars|] == vars;
  }

  datatype Target = Target(api: string, params: map<string, string>)

  /** What the handler takes from a uri. Without a `?` in the decoded text there is no path. */
  function Route(uri: string): Target {
    var path := Decoded(uri);
    if path == None then Target("", map[])
    else
      var pos := Find(path.value, "?", 0);
      if pos == NPOS then Target("", map[])
      else Target(Lower(path.value[..pos]), Parameters(path.value[pos + 1..]))
  }

  method RouteRequest(uri: string) returns (target: Target)
    ensures target == Route(uri)
  {
    var urlfile := "";
    var params: map<string, string> := map[];
    var ok, path := UrlDecode(uri);
    if ok {
      var pos := Find(path, "?", 0);
      if pos != NPOS {
        urlfile := path[..pos];
        params := ParseQuery(path[pos + 1..]);
      }
    }
    assert Lower("") == "";
    return Target(Lower(urlfile), params);
  }

  /** The ways to write one character in a uri (section 2.1 of RFC 3986 for the percent form). */
  datatype Piece = Literal(c: char) | Plus | Percent(code: nat, upperHigh: bool, upperLow: bool)

  const LOWER_HEX := "0123456789abcdef"
  const UPPER_HEX := "0123456789ABCDEF"

  /** A hexadecimal digit in either letter case. */
  function HexDigit(v: nat, upper: bool): char
    requires v < 16
  {
    if upper then UPPER_HEX[v] else LOWER_HEX[v]
  }

  lemma HexDigitValue(v: nat, upper: bool)
    requires v < 16
    ensures IsHex(HexDigit(v, upper)) && HexValue(HexDigit(v, upper)) == v
    ensures HexDigit(v, upper) != '+' && HexDigit(v, upper) != '-' && !IsSpace(HexDigit(v, upper))
  {
  }

  predicate ValidPiece(p: Piece) {
    match p
    case Literal(c) => c != '%' && c != '+'
    case Plus => true
    case Percent(code, _, _) => code < 256
  }

  predicate ValidPieces(ps: seq<Piece>) {
    forall i | 0 <= i < |ps| :: ValidPiece(ps[i])
  }

  function PieceText(p: Piece): string
    requires ValidPiece(p)
  {
    match p
    case Literal(c) => [c]
    case Plus => "+"
    case Percent(code, upperHigh, upperLow) => ['%', HexDigit(code / 16, upperHigh), HexDigit(code % 16, upperLow)]
  }

  function PieceValue(p: Piece): char
    requires ValidPiece(p)
  {
    match p
    case Literal(c) => c
    case Plus => ' '
    case Percent(code, _, _) => code as char
  }

  function PiecesText(ps: seq<Piece>): string
    requires ValidPieces(ps)
  {
    if ps == [] then "" else PieceText(ps[0]) + PiecesText(ps[1..])
  }

  function PiecesValue(ps: seq<Piece>): string
    requires ValidPieces(ps)
  {
    if ps == [] then "" else [PieceValue(ps[0])] + PiecesValue(ps[1..])
  }

  lemma PairDecodes(a: char, b: char, rest: string)
    ensures Decoded(['%', a, b] + rest) ==
              var v := HexPair(a, b); if v == None then None else Prepend([ByteOf(v.value)], Decoded(rest))
  {
    var s := ['%', a, b] + rest;
    assert s[3..] == rest;
  }

  lemma PairIsCode(a: char, b: char, code: nat)
    requires code < 256 && IsHex(a) && IsHex(b) && HexValue(a) == code / 16 && HexValue(b) == code % 16
    requires a != '+' && a != '-' && !IsSpace(a)
    ensures HexPair(a, b) == Some(code) && ByteOf(code) == code as char
  {
    hide HexValue, IsHex, IsSpace;
    assert 16 * (code / 16) + code % 16 == code;
  }

  lemma PercentDecodes(code: nat, upperHigh: bool, upperLow: bool, rest: string)
    requires code < 256
    ensures Decoded(['%', HexDigit(code / 16, upperHigh), HexDigit(code % 16, upperLow)] + rest) ==
              Prepend([code as char], Decoded(rest))
  {
    hide HexDigit, HexValue, Decoded, IsHex;
    var a, b := HexDigit(code / 16, upperHigh), HexDigit(code % 16, upperLow);
    HexDigitValue(code / 16, upperHigh);
    HexDigitValue(code % 16, upperLow);
    PairDecodes(a, b, rest);
    PairIsCode(a, b, code);
  }

  /** One piece decodes to its value, whatever follows. */
  lemma DecodesPiece(p: Piece, rest: string)
    requires ValidPiece(p)
    ensures Decoded(PieceText(p) + rest) == Prepend([PieceValue(p)], Decoded(rest))
  {
    if p.Percent? {
      PercentDecodes(p.code, p.upperHigh, p.upperLow, rest);
      hide HexDigit, Decoded;
    } else {
      assert (PieceText(p) + rest)[1..] == rest;
    }
  }

  /** Behind any mix of the three forms, decoding goes on with the rest. */
  lemma {:induction false} DecodesBehind(ps: seq<Piece>, rest: string)
    requires ValidPieces(ps)
    ensures Decoded(PiecesText(ps) + rest) == Prepend(PiecesValue(ps), Decoded(rest))
    decreases |ps|
  {
    hide Decoded;
    if ps == [] {
      assert "" + rest == rest;
      PrependNothing(Decoded(rest));
    } else {
      assert ValidPiece(ps[0]);
      var more := PiecesText(ps[1..]) + rest;
      DecodesPiece(ps[0], more);
      DecodesBehind(ps[1..], rest);
      hide PieceText, PieceValue;
      assert PiecesText(ps) + rest == PieceText(ps[0]) + more;
      PrependTwice([PieceValue(ps[0])], PiecesValue(ps[1..]), Decoded(rest));
    }
  }

  /** Every mix of the three forms decodes to the text that it stands for. */
  lemma DecodesPieces(ps: seq<Piece>)
    requires ValidPieces(ps)
    ensures Decoded(PiecesText(ps)) == Some(PiecesValue(ps))
  {
    hide PiecesText, PiecesValue;
    DecodesBehind(ps, "");
    assert PiecesText(ps) + "" == PiecesText(ps) && PiecesValue(ps) + "" == PiecesValue(ps);
  }

  predicate InHex(c: char) {
    c in LOWER_HEX || c in UPPER_HEX
  }

  lemma HexIsDigit(c: char)
    ensures IsHex(c) <==> InHex(c)
  {
    if IsHex(c) {
      var v := HexValue(c);
      assert c == LOWER_HEX[v] || c == UPPER_HEX[v];
    }
  }

  /** Decoding fails at a percent sign without two characters behind it. */
  lemma CutOffFails(ps: seq<Piece>, a: char)
    requires ValidPieces(ps)
    ensures Decoded(PiecesText(ps) + "%") == Decoded(PiecesText(ps) + ("%" + [a])) == None
  {
    DecodesBehind(ps, "%");
    DecodesBehind(ps, "%" + [a]);
    assert Decoded("%") == None && Decoded("%" + [a]) == None;
  }

  /** In front of one digit, a sign or white space counts. */
  lemma SignedPairs(a: char, v: nat, upper: bool, rest: string)
    requires v < 16
    ensures var d := HexDigit(v, upper);
            && (a == '+' || a as int == 32 || 9 <= a as int <= 13 ==>
                  Decoded(['%', a, d] + rest) == Prepend([v as char], Decoded(rest)))
            && Decoded(['%', '-', d] + rest) == Prepend([((256 - v) % 256) as char], Decoded(rest))
  {
    HexDigitValue(v, upper);
    var d := HexDigit(v, upper);
    PairDecodes(a, d, rest);
    PairDecodes('-', d, rest);
    hide HexDigit, Decoded, HexValue;
    assert (0 - v) % 256 == (256 - v) % 256;
  }

  /** Behind one digit another character is lost; but `0x` is no number. */
  lemma LostBehindDigit(b: char, v: nat, upper: bool, rest: string)
    requires v < 16 && !InHex(b)
    ensures Decoded(['%', HexDigit(v, upper), b] + rest) ==
              if v == 0 && (b == 'x' || b == 'X') then None else Prepend([v as char], Decoded(rest))
  {
    HexDigitValue(v, upper);
    HexIsDigit(b);
    var d := HexDigit(v, upper);
    assert d == '0' <==> v == 0;
    PairDecodes(d, b, rest);
    hide HexDigit, Decoded, HexValue, InHex;
  }

  /** Decoding fails at a pair that does not begin with a digit, a sign or white space, or has no
      digit at all. */
  lemma NoNumberFails(a: char, b: char, rest: string)
    requires !InHex(a)
    requires (a != '+' && a != '-' && a as int != 32 && !(9 <= a as int <= 13)) || !InHex(b)
    ensures Decoded(['%', a, b] + rest) == None
  {
    HexIsDigit(a);
    HexIsDigit(b);
    PairDecodes(a, b, rest);
    hide Decoded, HexValue, InHex;
  }

  /** A piece of the query string: a pair, or a text without an equals sign. */
  datatype Param = Pair(key: string, value: string) | Word(text: string)

  function ParamText(p: Param): string {
    match p
    case Pair(key, value) => key + "=" + value
    case Word(text) => text
  }

  function ParamTexts(ps: seq<Param>): (ts: seq<string>)
    ensures |ts| == |ps|
    ensures forall i | 0 <= i < |ps| :: ts[i] == ParamText(ps[i])
  {
    seq(|ps|, i requires 0 <= i < |ps| => ParamText(ps[i]))
  }

  predicate ValidParam(p: Param) {
    match p
    case Pair(key, value) => '&' !in key && '=' !in key && '&' !in value
    case Word(text) => '&' !in text && '=' !in text
  }

  predicate ValidParams(ps: seq<Param>) {
    forall i | 0 <= i < |ps| :: ValidParam(ps[i])
  }

  /** The map in which the last value of each key wins; words do not count. */
  function LastWins(ps: seq<Param>): map<string, string> {
    if ps == [] then map[]
    else
      var p, before := ps[|ps| - 1], LastWins(ps[..|ps| - 1]);
      if p.Pair? then before[p.key := p.value] else before
  }

  lemma FindNothing(s: string, c: char)
    requires c !in s
    ensures Find(s, [c], 0) == NPOS
  {
    forall i: int
      ensures !OccursAt(s, [c], i)
    {
      if 0 <= i < |s| {
        assert s[i] in s;
        DiffersAt(s, [c], i, 0);
      }
    }
  }

  lemma AssignParam(params: map<string, string>, p: Param)
    requires ValidParam(p)
    ensures Assign(params, ParamText(p)) == if p.Pair? then params[p.key := p.value] else params
  {
    if p.Pair? {
      FindCharacter(p.key, '=', p.value);
      assert ParamText(p)[..|p.key|] == p.key && ParamText(p)[|p.key| + 1..] == p.value;
    } else {
      FindNothing(p.text, '=');
    }
  }

  lemma {:induction false} AssignParams(ps: seq<Param>)
    requires ValidParams(ps)
    ensures AssignAll(map[], ParamTexts(ps)) == LastWins(ps)
    decreases |ps|
  {
    hide Assign;
    if ps != [] {
      var n := |ps| - 1;
      AssignParams(ps[..n]);
      assert ParamTexts(ps)[..n] == ParamTexts(ps[..n]);
      AssignParam(LastWins(ps[..n]), ps[n]);
    }
  }

  lemma AssignEmptyWord()
    ensures Assign(map[], "") == map[]
  {
    FindNothing("", '=');
  }

  /** The parameters of a query string: the last value of each key, and nothing of the words. */
  lemma ParametersOfPairs(ps: seq<Param>)
    requires ValidParams(ps)
    ensures Parameters(Join(ParamTexts(ps), "&")) == LastWins(ps)
  {
    hide Assign, LastWins, Find;
    var ts := ParamTexts(ps);
    AssignParams(ps);
    if ps != [] {
      forall t | t in ts
        ensures '&' !in t
      {
        var i :| 0 <= i < |ts| && ts[i] == t;
        assert ValidParam(ps[i]);
      }
      SplitJoinCharacter(ts, '&');
      if Join(ts, "&") == "" {
        assert |ts| == 1 && ts == [""];
        AssignEmptyWord();
        assert ts[..0] == [];
      }
    }
  }

  /** A path and a list of key-value pairs, written with any mix of literal, `+` and percent
      forms, come out as that path and the map of the pairs. The conditions are on the decoded
      text, because decoding comes before splitting. */
  lemma RouteRoundTrip(path: string, params: seq<Param>, ps: seq<Piece>)
    requires '?' !in path && ValidParams(params) && ValidPieces(ps)
    requires PiecesValue(ps) == path + "?" + Join(ParamTexts(params), "&")
    ensures var target := Route(PiecesText(ps));
            Folded(path, target.api) && target.params == LastWins(params)
  {
    LowerIsFolded(path);
    hide Find, Decoded, Parameters, PiecesText, PiecesValue, Lower;
    DecodesPieces(ps);
    var query := Join(ParamTexts(params), "&");
    var s := path + "?" + query;
    FindCharacter(path, '?', query);
    assert s[..|path|] == path && s[|path| + 1..] == query;
    ParametersOfPairs(params);
  }

  /** Without a question mark in the decoded text, or if the text does not decode, the handler has
      neither a path nor parameters. */
  lemma RouteOfNothing(uri: string)
    requires Decoded(uri).Some? ==> '?' !in Decoded(uri).value
    ensures Route(uri) == Target("", map[])
  {
    hide Decoded;
    if Decoded(uri).Some? {
      FindNothing(Decoded(uri).value, '?');
    }
  }
}
