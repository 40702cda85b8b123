/** `getCookie` of the page script: look up one cookie in the `document.cookie`
    header string. The header is split on ';', each piece is trimmed, and the
    first piece that starts with `name=` gives the value, passed through
    `decodeURIComponent`. The string built-ins it relies on (split, trim,
    substring) are written out with their ECMAScript meaning; the decoder is a
    parameter, and its URIError is the `UriError` outcome. */
module Cookie {
  import opened Types

  /** What `getCookie` returns: null, a decoded value, or the URIError the
      decoder throws. */
  datatype Lookup = Null | Value(value: string) | UriError

  /** ECMAScript WhiteSpace and LineTerminator code points: what `trim` removes. */
  predicate IsSpace(c: char)
  {
    var n := c as int;
    || n == 0x09 || n == 0x0A || n == 0x0B || n == 0x0C || n == 0x0D
    || n == 0x20 || n == 0xA0 || n == 0x1680 || (0x2000 <= n <= 0x200A)
    || n == 0x2028 || n == 0x2029 || n == 0x202F || n == 0x205F
    || n == 0x3000 || n == 0xFEFF
  }

  /** The length of the maximal run of white space that starts `s`. */
  function LeadingSpaces(s: string): (k: nat)
    ensures k <= |s|
    ensures forall j :: 0 <= j < k ==> IsSpace(s[j])
    ensures k < |s| ==> !IsSpace(s[k])
  {
    if s == [] || !IsSpace(s[0]) then 0 else 1 + LeadingSpaces(s[1..])
  }

  /** The length of the maximal run of white space that ends `s`. */
  function TrailingSpaces(s: string): (k: nat)
    ensures k <= |s|
    ensures forall j :: |s| - k <= j < |s| ==> IsSpace(s[j])
    ensures k < |s| ==> !IsSpace(s[|s| - 1 - k])
  {
    if s == [] || !IsSpace(s[|s| - 1]) then 0 else 1 + TrailingSpaces(s[..|s| - 1])
  }

  /** `String.prototype.trim`: `s` without its leading and trailing white space. */
  function Trim(s: string): (r: string)
    ensures |r| <= |s|
    ensures LeadingSpaces(s) + |r| <= |s| && r == s[LeadingSpaces(s)..LeadingSpaces(s) + |r|]
    ensures r != [] ==> !IsSpace(r[0]) && !IsSpace(r[|r| - 1])
    ensures AllSpace(s[LeadingSpaces(s) + |r|..])
  {
    var t := s[LeadingSpaces(s)..];
    var r := t[..|t| - TrailingSpaces(t)];
    assert AllSpace(s[LeadingSpaces(s) + |r|..]) by {
      var tail := s[LeadingSpaces(s) + |r|..];
      assert tail == t[|r|..];
      forall j | 0 <= j < |tail| ensures IsSpace(tail[j]) {
        assert tail[j] == t[|r| + j];
      }
    }
    r
  }

  /** Every character of `s` is white space. */
  predicate AllSpace(s: string)
  {
    forall j :: 0 <= j < |s| ==> IsSpace(s[j])
  }

  /** `String.prototype.split` with a one-character separator (no limit). */
  function Split(s: string, sep: char): (pieces: seq<string>)
    ensures |pieces| >= 1
    ensures forall i :: 0 <= i < |pieces| ==> sep !in pieces[i]
    decreases |s|
  {
    if s == [] then [""]
    else
      var rest := Split(s[1..], sep);
      if s[0] == sep then [""] + rest
      else [[s[0]] + rest[0]] + rest[1..]
  }

  /** `Array.prototype.join` with a one-character separator. */
  function Join(pieces: seq<string>, sep: char): string
  {
    if pieces == [] then ""
    else if |pieces| == 1 then pieces[0]
    else pieces[0] + [sep] + Join(pieces[1..], sep)
  }

  /** Joining what `split` returns gives back the header. */
  lemma {:induction false} JoinSplit(s: string, sep: char)
    ensures Join(Split(s, sep), sep) == s
    decreases |s|
  {
    if s != [] {
      var rest := Split(s[1..], sep);
      JoinSplit(s[1..], sep);
      if s[0] == sep {
        assert Split(s, sep) == [""] + rest;
        assert s == [sep] + s[1..];
      } else {
        var pieces := [[s[0]] + rest[0]] + rest[1..];
        assert Split(s, sep) == pieces;
        if |rest| == 1 {
          assert rest == [rest[0]];
        } else {
          assert rest == [rest[0]] + rest[1..];
          assert Join(rest, sep) == rest[0] + [sep] + Join(rest[1..], sep);
          assert pieces[1..] == rest[1..];
        }
        assert s == [s[0]] + s[1..];
      }
    }
  }

  /** Splitting a join of separator-free pieces gives back the pieces. */
  lemma {:induction false} SplitJoin(pieces: seq<string>, sep: char)
    requires |pieces| >= 1
    requires forall i :: 0 <= i < |pieces| ==> sep !in pieces[i]
    ensures Split(Join(pieces, sep), sep) == pieces
    decreases |pieces|, |pieces[0]|
  {
    var head := pieces[0];
    if head == [] {
      if |pieces| > 1 {
        SplitJoin(pieces[1..], sep);
        var joined := Join(pieces, sep);
        assert joined == [sep] + Join(pieces[1..], sep);
        assert joined[1..] == Join(pieces[1..], sep);
        assert pieces == [""] + pieces[1..];
      }
    } else {
      var shorter := [head[1..]] + pieces[1..];
      assert forall i :: 0 <= i < |shorter| ==> sep !in shorter[i] by {
        forall i | 0 <= i < |shorter| ensures sep !in shorter[i] {
          if i == 0 {
            assert forall c | c in head[1..] :: c in head;
          } else {
            assert shorter[i] == pieces[i];
          }
        }
      }
      SplitJoin(shorter, sep);
      var joined := Join(pieces, sep);
      assert joined == [head[0]] + Join(shorter, sep) by {
        if |pieces| == 1 {
          assert head == [head[0]] + head[1..];
        } else {
          assert shorter[1..] == pieces[1..];
          assert head == [head[0]] + head[1..];
        }
      }
      assert joined[1..] == Join(shorter, sep);
      assert joined[0] == head[0] && head[0] != sep by {
        assert head[0] in head;
      }
      assert head == [head[0]] + head[1..];
      assert pieces == [head] + pieces[1..];
      assert pieces == [[head[0]] + head[1..]] + shorter[1..];
    }
  }

  function Min(a: nat, b: nat): nat
  {
    if a <= b then a else b
  }

  /** `String.prototype.substring` on non-negative arguments: both are clamped
      to the length and swapped when out of order. */
  function Substring(s: string, start: nat, end: nat): (r: string)
    ensures |r| <= |s|
  {
    var a, b := Min(start, |s|), Min(end, |s|);
    if a <= b then s[a..b] else s[b..a]
  }

  /** The test of the loop: the first `|name| + 1` characters of the trimmed
      piece are `name=`; exactly when `name=` is a prefix of the piece. */
  function Matches(piece: string, name: string): (b: bool)
    ensures b <==> name + "=" <= piece
  {
    Substring(piece, 0, |name| + 1) == name + "="
  }

  /** What follows `name=` in a matching piece. */
  function Rest(piece: string, name: string): (r: string)
    requires Matches(piece, name)
    ensures piece == name + "=" + r
  {
    var r := Substring(piece, |name| + 1, |piece|);
    assert piece == piece[..|name| + 1] + r;
    r
  }

  /** `decodeURIComponent` applied to a raw value: `decode` returns None where
      it would throw. */
  function Decode(decode: string -> Option<string>, raw: string): (r: Lookup)
    ensures r != Null
  {
    match decode(raw)
    case Some(d) => Value(d)
    case None => UriError
  }

  /** Each piece, trimmed. */
  function TrimAll(pieces: seq<string>): (r: seq<string>)
    ensures |r| == |pieces|
    ensures forall j :: 0 <= j < |pieces| ==> r[j] == Trim(pieces[j])
  {
    seq(|pieces|, j requires 0 <= j < |pieces| => Trim(pieces[j]))
  }

  /** The index of the first (trimmed) piece that matches. */
  function FirstMatch(pieces: seq<string>, name: string): (r: Option<nat>)
    ensures r.Some? ==> r.value < |pieces| && Matches(pieces[r.value], name)
    ensures r.Some? ==> forall j :: 0 <= j < r.value ==> !Matches(pieces[j], name)
    ensures r.None? <==> forall j :: 0 <= j < |pieces| ==> !Matches(pieces[j], name)
  {
    if pieces == [] then None
    else if Matches(pieces[0], name) then Some(0)
    else
      match FirstMatch(pieces[1..], name)
      case None => None
      case Some(i) => Some(i + 1)
  }

  /** What `getCookie(name)` returns for the header `cookie`. */
  function CookieValue(cookie: string, name: string, decode: string -> Option<string>): (r: Lookup)
    ensures cookie == "" ==> r == Null
    ensures r == Null <==>
      (cookie == "" || forall j :: 0 <= j < |Split(cookie, ';')| ==> !Matches(Trim(Split(cookie, ';')[j]), name))
  {
    if cookie == "" then Null
    else
      var pieces := TrimAll(Split(cookie, ';'));
      match FirstMatch(pieces, name)
      case None => Null
      case Some(i) => Decode(decode, Rest(pieces[i], name))
  }

  /** `getCookie`: walks the pieces left to right and stops at the first match. */
  method GetCookie(cookie: string, name: string, decode: string -> Option<string>) returns (r: Lookup)
    ensures r == CookieValue(cookie, name, decode)
  {
    r := Null;
    if cookie != "" {
      var cookies := Split(cookie, ';');
      ghost var trimmed := TrimAll(cookies);
      for i := 0 to |cookies|
        invariant r == Null
        invariant forall j :: 0 <= j < i ==> !Matches(trimmed[j], name)
      {
        var piece := Trim(cookies[i]);
        assert piece == trimmed[i];
        if Matches(piece, name) {
          r := Decode(decode, Rest(piece, name));
          FirstMatchIs(trimmed, name, i);
          break;
        }
      }
      if r == Null {
        assert FirstMatch(trimmed, name).None?;
      }
    }
  }

  /** When several pieces match, the first one in left-to-right order gives
      the value: the decoding of the trimmed piece without its `name=`. */
  lemma FirstMatchWins(cookie: string, name: string, decode: string -> Option<string>, i: nat)
    requires cookie != ""
    requires i < |Split(cookie, ';')| && Matches(Trim(Split(cookie, ';')[i]), name)
    requires forall j :: 0 <= j < i ==> !Matches(Trim(Split(cookie, ';')[j]), name)
    ensures CookieValue(cookie, name, decode) == Decode(decode, Rest(Trim(Split(cookie, ';')[i]), name))
  {
    FirstMatchIs(TrimAll(Split(cookie, ';')), name, i);
  }

  /** The first index whose piece matches is what FirstMatch finds. */
  lemma FirstMatchIs(pieces: seq<string>, name: string, i: nat)
    requires i < |pieces| && Matches(pieces[i], name)
    requires forall j :: 0 <= j < i ==> !Matches(pieces[j], name)
    ensures FirstMatch(pieces, name) == Some(i)
  {
  }

  /** A cookie whose name merely starts with `name` does not match: the
      character after the name must be '='. */
  lemma LongerNameDoesNotMatch(piece: string, name: string)
    requires |name| < |piece| && piece[..|name|] == name && piece[|name|] != '='
    ensures !Matches(piece, name)
  {
  }

  /** A concrete case: `csrftokenX=...` is not the `csrftoken` cookie. */
  lemma CsrftokenXIsNotCsrftoken()
    ensures !Matches("csrftokenX=abc", "csrftoken")
  {
    LongerNameDoesNotMatch("csrftokenX=abc", "csrftoken");
  }

  /** White space before a piece (as after "; ") does not change its trimmed form. */
  lemma {:induction false} LeadingSpaceIgnored(spaces: string, piece: string)
    requires forall j :: 0 <= j < |spaces| ==> IsSpace(spaces[j])
    ensures Trim(spaces + piece) == Trim(piece)
  {
    LeadingSpacesOfPrefix(spaces, piece);
    assert (spaces + piece)[|spaces| + LeadingSpaces(piece)..] == piece[LeadingSpaces(piece)..];
  }

  lemma {:induction false} LeadingSpacesOfPrefix(spaces: string, piece: string)
    requires forall j :: 0 <= j < |spaces| ==> IsSpace(spaces[j])
    ensures LeadingSpaces(spaces + piece) == |spaces| + LeadingSpaces(piece)
    decreases |spaces|
  {
    if spaces != [] {
      LeadingSpacesOfPrefix(spaces[1..], piece);
      assert (spaces + piece)[1..] == spaces[1..] + piece;
    } else {
      assert spaces + piece == piece;
    }
  }

  /** An empty header gives null. */
  lemma EmptyCookieIsNull(name: string, decode: string -> Option<string>)
    ensures CookieValue("", name, decode) == Null
  {
  }
}
