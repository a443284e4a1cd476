/** Percent-decoding and parameter lists, told by the texts themselves. */
module QueryText {
  import opened Options
  import opened Query

  // ----- spellings of a character -----

  const LOWER := "0123456789abcdef"
  const UPPER := "0123456789ABCDEF"

  /** `c` is a hexadecimal digit of value `n`, in either case. */
  predicate IsHex(c: char, n: int) {
    0 <= n < 16 && (c == LOWER[n] || c == UPPER[n])
  }

  predicate AnyHex(c: char) {
    c in LOWER || c in UPPER
  }

  /** A byte is spelled by an escape of its two hexadecimal digits; what other escapes mean is up to `odd`. */
  predicate Escapes(text: string, c: char, odd: OddPairs) {
    && |text| == 3 && text[0] == '%'
    && (if AnyHex(text[1]) && AnyHex(text[2]) then
          c as int < 256 && IsHex(text[1], c as int / 16) && IsHex(text[2], c as int % 16)
        else odd(text[1], text[2]) == Some(c))
  }

  /** The ways to write `c`: as itself unless it is `%` or `+`, as `+` if it is a space, or as an escape. */
  predicate Spells(text: string, c: char, odd: OddPairs) {
    (text == [c] && c != '%' && c != '+') || (text == "+" && c == ' ') || Escapes(text, c, odd)
  }

  function Flatten(pieces: seq<string>): string {
    if pieces == [] then "" else pieces[0] + Flatten(pieces[1..])
  }

  /** One piece for each character. */
  ghost predicate SpelledBy(t: string, pieces: seq<string>, odd: OddPairs) {
    |pieces| == |t| && forall i :: 0 <= i < |t| ==> Spells(pieces[i], t[i], odd)
  }

  /** An escape that is cut off, or that no character answers to. */
  predicate Unreadable(text: string, odd: OddPairs) {
    text != "" && text[0] == '%'
    && (|text| < 3 || (!(AnyHex(text[1]) && AnyHex(text[2])) && odd(text[1], text[2]).None?))
  }

  // ----- single digits and escapes -----

  lemma HexDigitIs(c: char)
    ensures AnyHex(c) <==> HexDigit(c).Some?
    ensures HexDigit(c).Some? ==> 0 <= HexDigit(c).value < 16
  {
    var code := c as int;
    if '0' <= c <= '9' {
      assert c == LOWER[code - 48];
    } else if 'a' <= c <= 'f' {
      assert c == LOWER[code - 87];
    } else if 'A' <= c <= 'F' {
      assert c == UPPER[code - 55];
    }
  }

  lemma HexValueIs(c: char, n: int)
    ensures IsHex(c, n) <==> HexDigit(c) == Some(n)
  {
    if 0 <= n < 10 {
      assert LOWER[n] == '0' + n as char && UPPER[n] == '0' + n as char;
    } else if 10 <= n < 16 {
      assert LOWER[n] == 'a' + (n - 10) as char && UPPER[n] == 'A' + (n - 10) as char;
    }
  }

  lemma EscapeIs(a: char, b: char, c: char, odd: OddPairs)
    ensures Escapes(['%', a, b], c, odd) <==> HexByte(a, b, odd) == Some(c)
    ensures Unreadable(['%', a, b], odd) <==> HexByte(a, b, odd).None?
  {
    hide AnyHex, IsHex, HexDigit;
    HexDigitIs(a);
    HexDigitIs(b);
    HexValueIs(a, c as int / 16);
    HexValueIs(b, c as int % 16);
  }

  // ----- one piece at a time -----

  lemma EscapeDecodes(a: char, b: char, rest: string, odd: OddPairs)
    ensures Decode(['%', a, b] + rest, odd) ==
            if HexByte(a, b, odd).Some? then Prefixed([HexByte(a, b, odd).value], Decode(rest, odd)) else None
  {
    assert (['%', a, b] + rest)[3..] == rest;
    hide HexByte;
  }

  lemma CharDecodes(c: char, rest: string, odd: OddPairs)
    requires c != '%'
    ensures Decode([c] + rest, odd) == Prefixed([if c == '+' then ' ' else c], Decode(rest, odd))
  {
    assert ([c] + rest)[1..] == rest;
  }

  /** A piece in front adds its character in front. */
  lemma PieceDecodes(text: string, c: char, rest: string, odd: OddPairs)
    requires Spells(text, c, odd)
    ensures Decode(text + rest, odd) == Prefixed([c], Decode(rest, odd))
  {
    hide Decode, HexByte, Escapes;
    if Escapes(text, c, odd) {
      assert text == ['%', text[1], text[2]] by { EscapeShape(text, c, odd); }
      EscapeIs(text[1], text[2], c, odd);
      EscapeDecodes(text[1], text[2], rest, odd);
    } else {
      CharDecodes(text[0], rest, odd);
    }
  }

  lemma EscapeShape(text: string, c: char, odd: OddPairs)
    requires Escapes(text, c, odd)
    ensures |text| == 3 && text == ['%', text[1], text[2]]
  {
  }

  /** A text that decodes starts with a piece; one that does not and has no first piece is unreadable. */
  lemma FirstPiece(s: string, odd: OddPairs) returns (text: string, c: char)
    requires s != ""
    ensures Unreadable(s, odd) ==> Decode(s, odd).None?
    ensures !Unreadable(s, odd) ==> Spells(text, c, odd) && text != "" && |text| <= |s| && s == text + s[|text|..]
  {
    text, c := s[..1], s[0];
    if s[0] != '%' {
      assert text == [s[0]];
      c := if s[0] == '+' then ' ' else s[0];
    } else if |s| >= 3 {
      hide Decode, HexByte, AnyHex, Escapes;
      text := ['%', s[1], s[2]];
      assert s == text + s[3..];
      EscapeDecodes(s[1], s[2], s[3..], odd);
      UnreadableFirst(s, odd);
      if HexByte(s[1], s[2], odd).Some? {
        c := HexByte(s[1], s[2], odd).value;
        EscapeIs(s[1], s[2], c, odd);
      } else {
        EscapeIs(s[1], s[2], ' ', odd);
      }
    }
  }

  lemma UnreadableFirst(s: string, odd: OddPairs)
    requires |s| >= 3 && s[0] == '%'
    ensures Unreadable(s, odd) <==> Unreadable(['%', s[1], s[2]], odd)
  {
    hide AnyHex;
  }

  // ----- whole texts -----

  lemma {:induction false} SpelledDecodes(t: string, pieces: seq<string>, rest: string, odd: OddPairs)
    requires SpelledBy(t, pieces, odd)
    ensures Decode(Flatten(pieces) + rest, odd) == Prefixed(t, Decode(rest, odd))
    decreases |t|
  {
    hide Decode, Spells;
    if t == "" {
      assert Flatten(pieces) + rest == rest;
      PrefixedNothing(Decode(rest, odd));
    } else {
      var tail := Flatten(pieces[1..]) + rest;
      assert Flatten(pieces) + rest == pieces[0] + tail;
      assert SpelledBy(t[1..], pieces[1..], odd);
      SpelledDecodes(t[1..], pieces[1..], rest, odd);
      PieceDecodes(pieces[0], t[0], tail, odd);
      Associate([t[0]], t[1..], Decode(rest, odd));
      assert [t[0]] + t[1..] == t;
    }
  }

  /** Every text is some spelled characters and then nothing, or something unreadable. */
  lemma {:induction false} Pieces(s: string, odd: OddPairs) returns (t: string, pieces: seq<string>, bad: string)
    ensures SpelledBy(t, pieces, odd) && s == Flatten(pieces) + bad && (bad == "" || Unreadable(bad, odd))
    decreases |s|
  {
    hide Decode, Spells, Unreadable;
    t, pieces, bad := "", [], s;
    if s != "" {
      var text, c := FirstPiece(s, odd);
      if !Unreadable(s, odd) {
        var t', pieces', bad' := Pieces(s[|text|..], odd);
        t, pieces, bad := [c] + t', [text] + pieces', bad';
        assert pieces[1..] == pieces';
        assert Flatten(pieces) + bad == text + (Flatten(pieces') + bad');
      }
    }
  }

  /** A text decodes to `t` exactly when it spells `t`, in whatever spelling. */
  lemma DecodedTexts(s: string, t: string, odd: OddPairs)
    ensures Decode(s, odd) == Some(t) <==> exists pieces :: SpelledBy(t, pieces, odd) && s == Flatten(pieces)
  {
    hide Decode, Spells, Unreadable, Flatten, SpelledBy;
    if Decode(s, odd) == Some(t) {
      var t', pieces, bad := Pieces(s, odd);
      SpelledDecodes(t', pieces, bad, odd);
      EndDecodes(t', bad, odd);
      assert Flatten(pieces) + "" == Flatten(pieces);
    }
    if pieces :| SpelledBy(t, pieces, odd) && s == Flatten(pieces) {
      SpelledDecodes(t, pieces, "", odd);
      EndDecodes(t, "", odd);
      assert Flatten(pieces) + "" == Flatten(pieces);
    }
  }

  lemma EndDecodes(t: string, bad: string, odd: OddPairs)
    requires bad == "" || Unreadable(bad, odd)
    ensures Prefixed(t, Decode(bad, odd)) == if bad == "" then Some(t) else None
  {
    if bad == "" {
      assert t + "" == t && Decode("", odd) == Some("");
    } else {
      var text, c := FirstPiece(bad, odd);
    }
  }

  /** A text decodes to nothing at all exactly when, after some spelled characters, it comes to an escape that is
      cut off or unreadable; `UrlDecode` then answers the empty text. */
  lemma UndecodableTexts(s: string, odd: OddPairs)
    ensures Decode(s, odd).None? <==>
            exists t, pieces, bad :: SpelledBy(t, pieces, odd) && s == Flatten(pieces) + bad && Unreadable(bad, odd)
    ensures Decode(s, odd).None? ==> Decoded(s, odd) == ""
  {
    hide Decode, Spells, Unreadable, Flatten, SpelledBy;
    if Decode(s, odd).None? {
      var t, pieces, bad := Pieces(s, odd);
      SpelledDecodes(t, pieces, bad, odd);
      EndDecodes(t, bad, odd);
    }
    if t, pieces, bad :| SpelledBy(t, pieces, odd) && s == Flatten(pieces) + bad && Unreadable(bad, odd) {
      SpelledDecodes(t, pieces, bad, odd);
      NotEmpty(bad, odd);
      EndDecodes(t, bad, odd);
    }
  }

  lemma NotEmpty(bad: string, odd: OddPairs)
    requires Unreadable(bad, odd)
    ensures bad != ""
  {
  }

  // ----- parameters -----

  /** A text without a question mark has no parameters. */
  lemma NoQuestionMark(s: string, odd: OddPairs)
    requires '?' !in s
    ensures Parameters(s, odd) == map[]
  {
    hide Pairs, Collect;
  }

  lemma ListFound(path: string, list: string, odd: OddPairs)
    requires '?' !in path
    ensures Parameters(path + "?" + list, odd) == if Pairs(list).None? then map[] else Collect(Pairs(list).value, odd)
  {
    hide Pairs, Collect, Find;
    FindAt(path, '?', list);
    assert path + "?" + list == path + ['?'] + list;
  }

  /** The list is these pairs joined by `&`, with or without one at the end. */
  ghost predicate Lists(list: string, pairs: seq<Pair>) {
    Proper(pairs) && (list == ListText(pairs) || (pairs != [] && list == ListText(pairs) + "&"))
  }

  /** No pair of the list after `i` has the same key. */
  ghost predicate LastOfKey(pairs: seq<Pair>, i: int) {
    0 <= i < |pairs| && forall j :: i < j < |pairs| ==> pairs[j].key != pairs[i].key
  }

  /** The map has exactly the keys of the pairs, each with the decoded value of its last pair. */
  ghost predicate LastWins(m: map<string, string>, pairs: seq<Pair>, odd: OddPairs) {
    && (forall k :: k in m <==> exists i :: 0 <= i < |pairs| && pairs[i].key == k)
    && (forall i :: LastOfKey(pairs, i) ==> pairs[i].key in m && m[pairs[i].key] == Decoded(pairs[i].raw, odd))
  }

  lemma LastWinsOneMore(m: map<string, string>, pairs: seq<Pair>, p: Pair, odd: OddPairs)
    requires LastWins(m, pairs, odd)
    ensures LastWins(m[p.key := Decoded(p.raw, odd)], pairs + [p], odd)
  {
    hide Decoded;
    var more, m' := pairs + [p], m[p.key := Decoded(p.raw, odd)];
    assert more[|pairs|] == p && forall i :: 0 <= i < |pairs| ==> more[i] == pairs[i];
    forall i | LastOfKey(more, i) ensures more[i].key in m' && m'[more[i].key] == Decoded(more[i].raw, odd) {
      assert i < |pairs| ==> LastOfKey(pairs, i) && more[|pairs|].key != more[i].key;
    }
    forall k | k in m' ensures exists i :: 0 <= i < |more| && more[i].key == k {
      if k != p.key {
        var i :| 0 <= i < |pairs| && pairs[i].key == k;
        assert more[i].key == k;
      }
    }
  }

  lemma {:induction false} CollectedPairs(pairs: seq<Pair>, odd: OddPairs)
    ensures LastWins(Collect(pairs, odd), pairs, odd)
    decreases |pairs|
  {
    if pairs != [] {
      hide Decoded, Collect, LastWins;
      var n := |pairs| - 1;
      assert pairs == pairs[..n] + [pairs[n]];
      CollectedPairs(pairs[..n], odd);
      CollectOneMore(pairs[..n], pairs[n], odd);
      LastWinsOneMore(Collect(pairs[..n], odd), pairs[..n], pairs[n], odd);
    }
  }

  /** The parameters of a proper list: every key it names, each with the decoded value of its last pair. */
  lemma ParametersOfList(path: string, list: string, pairs: seq<Pair>, odd: OddPairs)
    requires '?' !in path && Lists(list, pairs)
    ensures LastWins(Parameters(path + "?" + list, odd), pairs, odd)
  {
    hide Pairs, Collect, Find, LastWins, Parameters, ListText;
    AcceptedLists(list, pairs);
    ListFound(path, list, odd);
    CollectedPairs(pairs, odd);
  }

  /** A list that is not proper gives no parameter at all. */
  lemma ParametersOfOtherList(path: string, list: string, odd: OddPairs)
    requires '?' !in path && forall pairs :: !Lists(list, pairs)
    ensures Parameters(path + "?" + list, odd) == map[]
  {
    hide Pairs, Collect, Find, Parameters, Lists;
    ListFound(path, list, odd);
    ParsedIsListed(list);
  }

  lemma ParsedIsListed(list: string)
    ensures Pairs(list).Some? ==> Lists(list, Pairs(list).value)
  {
    hide Pairs, ListText;
    if Pairs(list).Some? {
      AcceptedLists(list, Pairs(list).value);
    }
  }
}
