/** Query strings: percent-decoding and the parameter list after the `?`. */
module Query {
  import opened Options

  // ----- percent-decoding -----

  function HexDigit(c: char): Option<int> {
    if '0' <= c <= '9' then Some(c as int - '0' as int)
    else if 'a' <= c <= 'f' then Some(c as int - 'a' as int + 10)
    else if 'A' <= c <= 'F' then Some(c as int - 'A' as int + 10)
    else None
  }

  /** What the stream extraction makes of two characters that are not both hexadecimal digits. */
  type OddPairs = (char, char) -> Option<char>

  function HexByte(a: char, b: char, odd: OddPairs): Option<char> {
    match (HexDigit(a), HexDigit(b))
    case (Some(x), Some(y)) => if 0 <= 16 * x + y < 256 then Some((16 * x + y) as char) else None
    case _ => odd(a, b)
  }

  /** The decoded text, or nothing when an escape is cut off or unreadable. */
  function Decode(s: string, odd: OddPairs): Option<string> {
    if s == "" then Some("")
    else if s[0] == '%' then
      if |s| < 3 then None
      else
        var c :- HexByte(s[1], s[2], odd);
        var rest :- Decode(s[3..], odd);
        Some([c] + rest)
    else
      var rest :- Decode(s[1..], odd);
      Some([if s[0] == '+' then ' ' else s[0]] + rest)
  }

  /** A text that cannot be decoded counts as empty. */
  function Decoded(s: string, odd: OddPairs): string {
    var d := Decode(s, odd);
    if d.Some? then d.value else ""
  }

  method UrlDecode(input: string, odd: OddPairs) returns (out: string)
    ensures out == Decoded(input, odd)
  {
    out := "";
    var i := 0;
    PrefixedNothing(Decode(input, odd));
    assert input[0..] == input;
    while i < |input|
      invariant i <= |input|
      invariant Decode(input, odd) == Prefixed(out, Decode(input[i..], odd))
    {
      ghost var whole := input[i..];
      if input[i] == '%' {
        if i + 3 <= |input| {
          var value := HexByte(input[i + 1], input[i + 2], odd);
          assert whole[3..] == input[i + 3..];
          if value.Some? {
            Associate(out, [value.value], Decode(input[i + 3..], odd));
            out := out + [value.value];
            i := i + 2;
          } else {
            return "";
          }
        } else {
          return "";
        }
      } else {
        assert whole[1..] == input[i + 1..];
        var c := if input[i] == '+' then ' ' else input[i];
        Associate(out, [c], Decode(input[i + 1..], odd));
        out := out + [c];
      }
      i := i + 1;
    }
  }

  function Prefixed(a: string, b: Option<string>): Option<string> {
    if b.Some? then Some(a + b.value) else None
  }

  lemma PrefixedNothing(b: Option<string>)
    ensures Prefixed("", b) == b
  {
    if b.Some? {
      assert "" + b.value == b.value;
    }
  }

  lemma Associate(a: string, b: string, c: Option<string>)
    ensures Prefixed(a, Prefixed(b, c)) == Prefixed(a + b, c)
  {
    if c.Some? {
      assert a + (b + c.value) == (a + b) + c.value;
    }
  }

  // ----- percent-encoding -----

  predicate Bytes(s: string) {
    forall i :: 0 <= i < |s| ==> s[i] as int < 256
  }

  /** The unreserved characters of section 2.3 of RFC 3986. */
  predicate Unreserved(c: char) {
    '0' <= c <= '9' || 'a' <= c <= 'z' || 'A' <= c <= 'Z' || c in {'-', '.', '_', '~'}
  }

  function HexChar(n: int): char
    requires 0 <= n < 16
  {
    if n < 10 then '0' + n as char else 'A' + (n - 10) as char
  }

  function EncodeByte(c: char): string {
    if c == ' ' then "+" else if Unreserved(c) || c as int >= 256 then [c]
    else ['%', HexChar(c as int / 16), HexChar(c as int % 16)]
  }

  function Encode(s: string): string {
    if s == "" then "" else EncodeByte(s[0]) + Encode(s[1..])
  }

  lemma HexCharsAreDigits(n: int)
    requires 0 <= n < 16
    ensures HexDigit(HexChar(n)) == Some(n) && HexChar(n) != '&'
  {
  }

  /** Decoding undoes encoding, whatever odd pairs mean. */
  lemma {:induction false} DecodeEncode(s: string, odd: OddPairs)
    requires Bytes(s)
    ensures Decode(Encode(s), odd) == Some(s)
    decreases |s|
  {
    if s != "" {
      var c, tail := s[0], Encode(s[1..]);
      DecodeEncode(s[1..], odd);
      assert s == [c] + s[1..];
      if c == ' ' || Unreserved(c) {
        assert (EncodeByte(c) + tail)[1..] == tail;
      } else {
        HexCharsAreDigits(c as int / 16);
        HexCharsAreDigits(c as int % 16);
        assert (EncodeByte(c) + tail)[3..] == tail;
      }
    }
  }

  lemma EncodedByteIsPlain(c: char)
    requires c as int < 256
    ensures EncodeByte(c) != "" && EncodeByte(c)[0] != ' ' && '&' !in EncodeByte(c)
  {
    HexCharsAreDigits(c as int / 16);
    HexCharsAreDigits(c as int % 16);
  }

  lemma {:induction false} EncodedIsPlain(s: string)
    requires Bytes(s)
    ensures '&' !in Encode(s) && Encode(s) != " " && (s != "" ==> Encode(s) != "")
    decreases |s|
  {
    if s != "" {
      EncodedIsPlain(s[1..]);
      EncodedByteIsPlain(s[0]);
      hide EncodeByte;
      assert Encode(s)[0] == EncodeByte(s[0])[0];
    }
  }

  // ----- the parameter list -----

  function Find(s: string, c: char): (p: Option<nat>)
    ensures p.None? ==> c !in s
    ensures p.Some? ==> p.value < |s| && s[p.value] == c && c !in s[..p.value]
  {
    if s == "" then None
    else if s[0] == c then Some(0)
    else
      var p := Find(s[1..], c);
      if p.None? then None else (assert s[..p.value + 1] == [s[0]] + s[1..][..p.value]; Some(p.value + 1))
  }

  lemma FindAt(before: string, c: char, after: string)
    requires c !in before
    ensures Find(before + [c] + after, c) == Some(|before|)
    ensures (before + [c] + after)[..|before|] == before && (before + [c] + after)[|before| + 1..] == after
  {
    var s := before + [c] + after;
    assert s[|before|] == c;
    assert forall i :: 0 <= i < |before| ==> s[i] == before[i] && before[i] in before;
    forall j | |before| < j <= |s| ensures c in s[..j] {
      assert s[..j][|before|] == c;
    }
  }

  datatype Pair = Pair(key: string, raw: string)

  predicate ProperPair(p: Pair) {
    p.key != "" && '=' !in p.key && p.raw != "" && p.raw != " " && '&' !in p.raw
  }

  /** The first pair of a non-empty list and what follows its `&`. */
  function FirstPair(s: string): (r: Option<(Pair, string)>)
    ensures r.Some? ==> |r.value.1| < |s|
  {
    var eq :- Find(s, '=');
    var key, rest := s[..eq], s[eq + 1..];
    if key == "" then None
    else
      var amp := Find(rest, '&');
      var raw := if amp.Some? then rest[..amp.value] else rest;
      if raw == "" || raw == " " then None
      else Some((Pair(key, raw), if amp.Some? then rest[amp.value + 1..] else ""))
  }

  /** The pairs of a parameter list, values still encoded, or nothing when some piece is malformed. */
  function Pairs(s: string): Option<seq<Pair>>
    decreases |s|
  {
    if s == "" then Some([])
    else
      var (p, rest) :- FirstPair(s);
      var more :- Pairs(rest);
      Some([p] + more)
  }

  /** Later pairs win over earlier ones with the same key. */
  function Collect(pairs: seq<Pair>, odd: OddPairs): map<string, string> {
    if pairs == [] then map[]
    else
      var last := pairs[|pairs| - 1];
      Collect(pairs[..|pairs| - 1], odd)[last.key := Decoded(last.raw, odd)]
  }

  /** The list after the first `?`, empty when there is none or when any piece is malformed. */
  function Parameters(s: string, odd: OddPairs): map<string, string> {
    match Find(s, '?')
    case None => map[]
    case Some(q) =>
      match Pairs(s[q + 1..])
      case None => map[]
      case Some(pairs) => Collect(pairs, odd)
  }

  /** One round of the parser's loop: reads the first pair off `str`. */
  method TakePair(input: string) returns (ok: bool, key: string, value: string, str: string)
    ensures FirstPair(input) == if ok then Some((Pair(key, value), str)) else None
  {
    value, str := "", input;
    var findPos := Find(str, '=');
    key := if findPos.Some? then str[..findPos.value] else str;
    if findPos.None? || |key| == 0 {
      ok := false;
      return;
    }
    str := str[findPos.value + 1..];
    findPos := Find(str, '&');
    value := if findPos.Some? then str[..findPos.value] else str;
    if |value| == 0 || value == " " {
      ok := false;
      return;
    }
    str := if findPos.Some? then str[findPos.value + 1..] else "";
    ok := true;
  }

  method ParseParameters(input: string, odd: OddPairs) returns (params: map<string, string>)
    ensures params == Parameters(input, odd)
  {
    params := map[];
    var findPos := Find(input, '?');
    if findPos.None? {
      return map[];
    }
    var str := input[findPos.value + 1..];
    ghost var list, done := str, [];
    StartOfRounds(list, odd);
    hide Decoded, Collect, Parameters, Pairs, Find, FirstPair, Appended;
    while str != ""
      invariant Pairs(list) == Appended(done, Pairs(str))
      invariant params == Collect(done, odd)
      decreases |str|
    {
      var ok, key, value, rest := TakePair(str);
      if !ok {
        RoundFails(input, list, done, str, odd);
        return map[];
      }
      RoundKeeps(list, done, str, Pair(key, value), rest, odd);
      str := rest;
      var text := UrlDecode(value, odd);
      params := params[key := text];
      done := done + [Pair(key, value)];
    }
    EndOfRounds(input, list, done, odd);
  }

  lemma StartOfRounds(list: string, odd: OddPairs)
    ensures Pairs(list) == Appended([], Pairs(list)) && Collect([], odd) == map[]
  {
    AppendedNothing(Pairs(list));
  }

  lemma RoundKeeps(list: string, done: seq<Pair>, str: string, p: Pair, rest: string, odd: OddPairs)
    requires str != "" && FirstPair(str) == Some((p, rest)) && Pairs(list) == Appended(done, Pairs(str))
    ensures Pairs(list) == Appended(done + [p], Pairs(rest)) && |rest| < |str|
    ensures Collect(done + [p], odd) == Collect(done, odd)[p.key := Decoded(p.raw, odd)]
  {
    PairsStep(str);
    CollectOneMore(done, p, odd);
    hide Pairs, Collect, Appended, Decoded;
    AppendedTwice(done, [p], Pairs(rest));
  }

  lemma CollectOneMore(done: seq<Pair>, p: Pair, odd: OddPairs)
    ensures Collect(done + [p], odd) == Collect(done, odd)[p.key := Decoded(p.raw, odd)]
  {
    hide Decoded;
    assert (done + [p])[..|done|] == done;
  }

  lemma RoundFails(input: string, list: string, done: seq<Pair>, str: string, odd: OddPairs)
    requires Find(input, '?').Some? && list == input[Find(input, '?').value + 1..]
    requires str != "" && FirstPair(str).None? && Pairs(list) == Appended(done, Pairs(str))
    ensures Parameters(input, odd) == map[]
  {
    hide FirstPair, Collect;
    PairsStep(str);
  }

  lemma EndOfRounds(input: string, list: string, done: seq<Pair>, odd: OddPairs)
    requires Find(input, '?').Some? && list == input[Find(input, '?').value + 1..]
    requires Pairs(list) == Appended(done, Pairs(""))
    ensures Parameters(input, odd) == Collect(done, odd)
  {
    hide FirstPair, Collect;
    assert done + [] == done;
  }

  lemma PairsStep(s: string)
    requires s != ""
    ensures FirstPair(s).None? ==> Pairs(s).None?
    ensures FirstPair(s).Some? ==> Pairs(s) == Appended([FirstPair(s).value.0], Pairs(FirstPair(s).value.1))
  {
  }

  ghost function Appended(a: seq<Pair>, b: Option<seq<Pair>>): Option<seq<Pair>> {
    if b.Some? then Some(a + b.value) else None
  }

  lemma AppendedNothing(b: Option<seq<Pair>>)
    ensures Appended([], b) == b
  {
    if b.Some? {
      assert [] + b.value == b.value;
    }
  }

  lemma AppendedTwice(a: seq<Pair>, b: seq<Pair>, c: Option<seq<Pair>>)
    ensures Appended(a, Appended(b, c)) == Appended(a + b, c)
  {
    if c.Some? {
      assert a + (b + c.value) == (a + b) + c.value;
    }
  }

  // ----- which lists are accepted -----

  function PairText(p: Pair): string {
    p.key + "=" + p.raw
  }

  function ListText(pairs: seq<Pair>): string {
    if pairs == [] then ""
    else if |pairs| == 1 then PairText(pairs[0])
    else PairText(pairs[0]) + "&" + ListText(pairs[1..])
  }

  ghost predicate Proper(pairs: seq<Pair>) {
    forall i :: 0 <= i < |pairs| ==> ProperPair(pairs[i])
  }

  /** A list is one pair, or one pair, an `&` and another list. */
  lemma FirstPairFound(p: Pair, rest: string)
    requires ProperPair(p)
    ensures FirstPair(PairText(p)) == Some((p, ""))
    ensures FirstPair(PairText(p) + "&" + rest) == Some((p, rest))
  {
    hide Find;
    FindAt(p.key, '=', p.raw);
    assert PairText(p) == p.key + ['='] + p.raw;
    FindAt(p.key, '=', p.raw + "&" + rest);
    assert PairText(p) + "&" + rest == p.key + ['='] + (p.raw + "&" + rest);
    FindAt(p.raw, '&', rest);
    assert p.raw + "&" + rest == p.raw + ['&'] + rest;
  }

  lemma FirstPairShape(s: string)
    requires FirstPair(s).Some?
    ensures var (p, rest) := FirstPair(s).value;
      ProperPair(p) && ((rest == "" && s == PairText(p)) || s == PairText(p) + "&" + rest)
  {
    hide Find;
    var eq := Find(s, '=').value;
    var key, rest := s[..eq], s[eq + 1..];
    var amp := Find(rest, '&');
    assert s == key + "=" + rest;
    if amp.Some? {
      Rejoined(key, rest, amp.value);
    }
  }

  lemma Rejoined(key: string, rest: string, amp: nat)
    requires amp < |rest| && rest[amp] == '&'
    ensures key + "=" + rest == PairText(Pair(key, rest[..amp])) + "&" + rest[amp + 1..]
  {
    assert rest == rest[..amp] + "&" + rest[amp + 1..];
  }

  lemma ListTextStep(pairs: seq<Pair>)
    requires pairs != []
    ensures ListText(pairs) ==
            if pairs[1..] == [] then PairText(pairs[0]) else PairText(pairs[0]) + "&" + ListText(pairs[1..])
  {
    hide PairText;
  }

  /** Every proper list, with or without a closing `&`, parses to its pairs. */
  lemma {:induction false} ProperListParses(pairs: seq<Pair>)
    requires Proper(pairs)
    ensures Pairs(ListText(pairs)) == Some(pairs)
    ensures pairs != [] ==> Pairs(ListText(pairs) + "&") == Some(pairs)
    decreases |pairs|
  {
    hide Pairs, PairText, ProperPair, ListText;
    EmptyList();
    if pairs != [] {
      var p, more, text := pairs[0], pairs[1..], ListText(pairs[1..]);
      ListTextStep(pairs);
      ProperListParses(more);
      assert pairs == [p] + more;
      if more == [] {
        OneMoreParses(p, "");
        assert pairs == [p] && PairText(p) + "&" + "" == PairText(p) + "&";
      } else {
        OneMoreParses(p, text);
        OneMoreParses(p, text + "&");
        assert PairText(p) + "&" + text + "&" == PairText(p) + "&" + (text + "&");
      }
    }
  }

  lemma OneMoreParses(p: Pair, rest: string)
    requires ProperPair(p)
    ensures Pairs(PairText(p)) == Some([p])
    ensures Pairs(PairText(p) + "&" + rest) == Appended([p], Pairs(rest))
  {
    EmptyList();
    assert PairText(p) != "" && [p] + [] == [p];
    hide FirstPair, PairText, Pairs;
    FirstPairFound(p, rest);
    PairsStep(PairText(p));
    PairsStep(PairText(p) + "&" + rest);
  }

  lemma EmptyList()
    ensures Pairs("") == Some([]) && ListText([]) == ""
  {
  }

  /** Whatever parses is a proper list, with or without a closing `&`. */
  lemma {:induction false} ParsedIsProper(s: string)
    requires Pairs(s).Some?
    ensures var pairs := Pairs(s).value;
      Proper(pairs) && (s == ListText(pairs) || (pairs != [] && s == ListText(pairs) + "&"))
    decreases |s|
  {
    EmptyList();
    if s != "" {
      var (p, rest) := FirstPair(s).value;
      hide FirstPair, PairText, ProperPair;
      FirstPairShape(s);
      ParsedIsProper(rest);
      if s == PairText(p) {
        assert Pairs(s).value == [p];
      } else {
        JoinedLists(p, Pairs(rest).value, rest);
      }
    }
  }

  lemma JoinedLists(p: Pair, more: seq<Pair>, tail: string)
    requires tail == ListText(more) || (more != [] && tail == ListText(more) + "&")
    ensures var pairs := [p] + more; var s := PairText(p) + "&" + tail;
      s == ListText(pairs) || s == ListText(pairs) + "&"
  {
    hide PairText;
    assert ([p] + more)[1..] == more;
    if more == [] {
      assert PairText(p) + "&" + "" == PairText(p) + "&";
      assert [p] + more == [p];
    } else if tail != ListText(more) {
      assert PairText(p) + "&" + (ListText(more) + "&") == PairText(p) + "&" + ListText(more) + "&";
    }
  }

  /** The lists that parse are exactly the proper ones; all others give no parameter at all. */
  lemma AcceptedLists(s: string, pairs: seq<Pair>)
    ensures Pairs(s) == Some(pairs) <==>
            Proper(pairs) && (s == ListText(pairs) || (pairs != [] && s == ListText(pairs) + "&"))
  {
    if Pairs(s) == Some(pairs) {
      ParsedIsProper(s);
    }
    if Proper(pairs) {
      ProperListParses(pairs);
    }
  }

  // ----- parsing undoes printing -----

  datatype Parameter = Parameter(key: string, value: string)

  ghost predicate Printable(ps: seq<Parameter>) {
    && (forall i :: 0 <= i < |ps| ==> ps[i].key != "" && '=' !in ps[i].key && ps[i].value != "" && Bytes(ps[i].value))
    && (forall i, j :: 0 <= i < j < |ps| ==> ps[i].key != ps[j].key)
  }

  function EncodedPairs(ps: seq<Parameter>): seq<Pair> {
    seq(|ps|, i requires 0 <= i < |ps| => Pair(ps[i].key, Encode(ps[i].value)))
  }

  function PrintQuery(path: string, ps: seq<Parameter>): string {
    path + "?" + ListText(EncodedPairs(ps))
  }

  /** The map holds exactly the printed parameters. */
  ghost predicate Holds(m: map<string, string>, ps: seq<Parameter>) {
    && (forall k :: k in m ==> exists i :: 0 <= i < |ps| && ps[i].key == k)
    && (forall i :: 0 <= i < |ps| ==> ps[i].key in m && m[ps[i].key] == ps[i].value)
  }

  lemma {:induction false} CollectedValues(ps: seq<Parameter>, odd: OddPairs)
    requires Printable(ps)
    ensures Holds(Collect(EncodedPairs(ps), odd), ps)
    decreases |ps|
  {
    if ps != [] {
      hide Decode, Encode, Collect, Holds;
      var n := |ps| - 1;
      var last := Pair(ps[n].key, Encode(ps[n].value));
      assert EncodedPairs(ps) == EncodedPairs(ps[..n]) + [last];
      CollectedValues(ps[..n], odd);
      CollectOneMore(EncodedPairs(ps[..n]), last, odd);
      DecodeEncode(ps[n].value, odd);
      hide EncodedPairs;
      HoldsOneMore(Collect(EncodedPairs(ps[..n]), odd), ps);
    } else {
      assert EncodedPairs(ps) == [];
    }
  }

  lemma HoldsOneMore(m: map<string, string>, ps: seq<Parameter>)
    requires Printable(ps) && ps != [] && Holds(m, ps[..|ps| - 1])
    ensures Holds(m[ps[|ps| - 1].key := ps[|ps| - 1].value], ps)
  {
    var n := |ps| - 1;
    assert forall i :: 0 <= i < n ==> ps[..n][i] == ps[i];
  }

  /** Parsing a printed query gives back exactly the printed parameters. */
  lemma ParseUndoesPrint(path: string, ps: seq<Parameter>, odd: OddPairs)
    requires '?' !in path && Printable(ps)
    ensures Holds(Parameters(PrintQuery(path, ps), odd), ps)
  {
    var pairs := EncodedPairs(ps);
    forall i | 0 <= i < |pairs| ensures ProperPair(pairs[i]) {
      EncodedIsPlain(ps[i].value);
    }
    ProperListParses(pairs);
    FindAt(path, '?', ListText(pairs));
    assert PrintQuery(path, ps) == path + ['?'] + ListText(pairs);
    CollectedValues(ps, odd);
  }
}
