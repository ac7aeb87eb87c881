/** `TryFrom<&HeaderValue> for ExternalToken`: parsing an `Authorization` header value. */
module Conversions {
  import opened Base
  import opened ExternalModels

  /** The bytes of an HTTP header value, as the transport delivers them. */
  datatype HeaderValue = HeaderValue(bytes: seq<byte>)

  const InvalidTokenFormat := "Invalid token format"
  const Scheme := "Bearer"

  /** The byte test behind `HeaderValue::to_str`: printable ASCII or a horizontal tab. */
  predicate IsVisibleAscii(b: byte)
  {
    (32 <= b < 127) || b == 9
  }

  /** The same test on a character, for text that is to be carried in a header. */
  predicate IsVisibleChar(c: char)
  {
    c as int < 256 && IsVisibleAscii(c as int as byte)
  }

  /** `HeaderValue::to_str`: the value as text when every byte is visible ASCII, nothing otherwise. */
  function ToStr(h: HeaderValue): (r: Option<string>)
    ensures r.Some? <==> forall i :: 0 <= i < |h.bytes| ==> IsVisibleAscii(h.bytes[i])
    ensures r.Some? ==> |r.value| == |h.bytes| && forall i :: 0 <= i < |h.bytes| ==> r.value[i] as int == h.bytes[i] as int
  {
    if forall i :: 0 <= i < |h.bytes| ==> IsVisibleAscii(h.bytes[i])
    then Some(seq(|h.bytes|, i requires 0 <= i < |h.bytes| => h.bytes[i] as int as char))
    else None
  }

  predicate VisibleText(s: string)
  {
    forall i :: 0 <= i < |s| ==> IsVisibleChar(s[i])
  }

  /** The header value carrying the visible text `s`, one byte per character. */
  function FromAscii(s: string): (h: HeaderValue)
    requires VisibleText(s)
    ensures ToStr(h) == Some(s)
  {
    var h := HeaderValue(seq(|s|, i requires 0 <= i < |s| => s[i] as int as byte));
    assert ToStr(h).value == s;
    h
  }

  /** The header value `Bearer ` followed by the visible text `t`. */
  function BearerHeader(t: string): (h: HeaderValue)
    requires VisibleText(t)
    ensures ToStr(h) == Some("Bearer " + t)
  {
    var h := HeaderValue(FromAscii("Bearer ").bytes + FromAscii(t).bytes);
    assert ToStr(h).value == "Bearer " + t;
    h
  }

  /** `str::split(" ")`: the pieces between single spaces, empty pieces included. */
  function Split(s: string): (r: seq<string>)
    ensures |r| >= 1
  {
    if |s| == 0 then [""]
    else if s[0] == ' ' then [""] + Split(s[1..])
    else
      var rest := Split(s[1..]);
      [[s[0]] + rest[0]] + rest[1..]
  }

  /** Joins pieces with single spaces: the inverse of `Split`. */
  function Join(parts: seq<string>): string
    requires |parts| >= 1
  {
    if |parts| == 1 then parts[0] else parts[0] + " " + Join(parts[1..])
  }

  function CountSpaces(s: string): nat
  {
    if |s| == 0 then 0 else (if s[0] == ' ' then 1 else 0) + CountSpaces(s[1..])
  }

  /** The header parser: exactly two space-separated pieces, the first of which is `Bearer`. */
  function TryFromHeader(value: HeaderValue): (r: Result<ExternalToken>)
    ensures r.Err? ==> r.error == InvalidTokenFormat
  {
    match ToStr(value)
    case None => Err(InvalidTokenFormat)
    case Some(s) =>
      var tokens := Split(s);
      if |tokens| != 2 then Err(InvalidTokenFormat)
      else if tokens[0] != Scheme then Err(InvalidTokenFormat)
      else Ok(TokenFrom(tokens[1]))
  }

  // ---------------------------------------------------------------- Split

  lemma {:induction false} SplitJoin(s: string)
    ensures Join(Split(s)) == s
  {
    if |s| == 0 {
    } else if s[0] == ' ' {
      SplitJoin(s[1..]);
      assert Split(s)[1..] == Split(s[1..]);
      assert s == [' '] + s[1..];
    } else {
      SplitJoin(s[1..]);
      var rest := Split(s[1..]);
      if |rest| == 1 {
        assert s == [s[0]] + s[1..];
      } else {
        assert Split(s)[1..] == rest[1..];
        assert Join(rest) == rest[0] + " " + Join(rest[1..]);
        assert s == [s[0]] + s[1..];
      }
    }
  }

  lemma {:induction false} SplitPiecesHaveNoSpace(s: string)
    ensures forall k :: 0 <= k < |Split(s)| ==> ' ' !in Split(s)[k]
  {
    if |s| > 0 {
      SplitPiecesHaveNoSpace(s[1..]);
      if s[0] != ' ' {
        var rest := Split(s[1..]);
        assert forall k :: 1 <= k < |Split(s)| ==> Split(s)[k] == rest[k];
      }
    }
  }

  lemma {:induction false} SplitCount(s: string)
    ensures |Split(s)| == CountSpaces(s) + 1
  {
    if |s| > 0 {
      SplitCount(s[1..]);
    }
  }

  lemma {:induction false} SplitWithoutSpace(t: string)
    requires ' ' !in t
    ensures Split(t) == [t]
  {
    if |t| > 0 {
      assert ' ' !in t[1..] by {
        forall k | 0 <= k < |t[1..]| ensures t[1..][k] != ' ' {
          assert t[1..][k] == t[k + 1];
        }
      }
      SplitWithoutSpace(t[1..]);
      assert t == [t[0]] + t[1..];
    }
  }

  lemma {:induction false} SplitAfterFirstSpace(a: string, b: string)
    requires ' ' !in a
    ensures Split(a + " " + b) == [a] + Split(b)
  {
    if |a| == 0 {
      assert a + " " + b == [' '] + b;
      assert (a + " " + b)[1..] == b;
    } else {
      var s := a + " " + b;
      assert s[0] == a[0];
      assert s[1..] == a[1..] + " " + b;
      assert ' ' !in a[1..] by {
        forall k | 0 <= k < |a[1..]| ensures a[1..][k] != ' ' {
          assert a[1..][k] == a[k + 1];
        }
      }
      SplitAfterFirstSpace(a[1..], b);
      assert a == [a[0]] + a[1..];
    }
  }

  /** The pieces of `s` are exactly the space-free strings that join back to `s`. */
  lemma {:induction false} SplitUnique(s: string, parts: seq<string>)
    requires |parts| >= 1
    requires forall k :: 0 <= k < |parts| ==> ' ' !in parts[k]
    ensures Join(parts) == s <==> Split(s) == parts
    decreases |parts|
  {
    if Split(s) == parts {
      SplitJoin(s);
    }
    if Join(parts) == s {
      if |parts| == 1 {
        SplitWithoutSpace(parts[0]);
      } else {
        assert forall k :: 0 <= k < |parts[1..]| ==> ' ' !in parts[1..][k] by {
          forall k | 0 <= k < |parts[1..]| ensures ' ' !in parts[1..][k] {
            assert parts[1..][k] == parts[k + 1];
          }
        }
        SplitUnique(Join(parts[1..]), parts[1..]);
        SplitAfterFirstSpace(parts[0], Join(parts[1..]));
        assert parts == [parts[0]] + parts[1..];
      }
    }
  }

  // ---------------------------------------------------------------- the parser

  /** A value is accepted exactly when it reads as `Bearer`, one space, and a space-free token; the token is what is returned. */
  lemma ParseCharacterization(h: HeaderValue, t: string)
    ensures TryFromHeader(h) == Ok(ExternalToken(t)) <==> (ToStr(h) == Some("Bearer " + t) && ' ' !in t)
  {
    if ToStr(h).Some? {
      var s := ToStr(h).value;
      if TryFromHeader(h) == Ok(ExternalToken(t)) {
        SplitJoin(s);
        SplitPiecesHaveNoSpace(s);
        assert Split(s) == ["Bearer", t];
        assert Join(Split(s)) == "Bearer" + " " + t;
        assert ' ' !in Split(s)[1];
      }
      if s == "Bearer " + t && ' ' !in t {
        SplitAfterFirstSpace("Bearer", t);
        SplitWithoutSpace(t);
        assert s == "Bearer" + " " + t;
      }
    }
  }

  /** `Bearer <t>` with a visible, space-free `t` parses to exactly `t`. */
  lemma ParseBearerRoundTrip(t: string)
    requires VisibleText(t)
    requires ' ' !in t
    ensures TryFromHeader(BearerHeader(t)) == Ok(ExternalToken(t))
  {
    ParseCharacterization(BearerHeader(t), t);
  }

  /** Anything that does not split into exactly two pieces is rejected. */
  lemma RejectsWrongPieceCount(h: HeaderValue)
    requires ToStr(h).Some? && |Split(ToStr(h).value)| != 2
    ensures TryFromHeader(h) == Err(InvalidTokenFormat)
  {
  }

  /** A first piece other than `Bearer`, compared case-sensitively, is rejected. */
  lemma RejectsWrongScheme(h: HeaderValue)
    requires ToStr(h).Some? && Split(ToStr(h).value)[0] != "Bearer"
    ensures TryFromHeader(h) == Err(InvalidTokenFormat)
  {
  }

  /** A value with a byte that is not visible ASCII is rejected. */
  lemma RejectsNonVisible(h: HeaderValue, i: int)
    requires 0 <= i < |h.bytes| && !IsVisibleAscii(h.bytes[i])
    ensures TryFromHeader(h) == Err(InvalidTokenFormat)
  {
  }

  /** A parsed token never contains a space. */
  lemma ParsedTokenHasNoSpace(h: HeaderValue)
    requires TryFromHeader(h).Ok?
    ensures ' ' !in TryFromHeader(h).value.token
  {
    SplitPiecesHaveNoSpace(ToStr(h).value);
  }

  /** `"Bearer "` with nothing after the space is accepted and yields the empty token. */
  lemma AcceptsEmptyToken()
    ensures TryFromHeader(FromAscii("Bearer ")) == Ok(ExternalToken(""))
  {
    ParseCharacterization(FromAscii("Bearer "), "");
    SplitWithoutSpace("");
  }

  /** A visible text is accepted exactly when it is `Bearer`, one space, and a space-free token. */
  lemma AcceptedText(s: string)
    requires VisibleText(s)
    ensures TryFromHeader(FromAscii(s)).Ok? <==> (|s| >= 7 && s[..7] == "Bearer " && ' ' !in s[7..])
  {
    var h := FromAscii(s);
    if TryFromHeader(h).Ok? {
      ParseCharacterization(h, TryFromHeader(h).value.token);
    }
    if |s| >= 7 && s[..7] == "Bearer " && ' ' !in s[7..] {
      assert s == "Bearer " + s[7..];
      ParseCharacterization(h, s[7..]);
    }
  }

  /** `"Bearer"` alone has one piece and is rejected. */
  lemma RejectsSchemeOnly()
    ensures TryFromHeader(FromAscii("Bearer")).Err?
  {
    AcceptedText("Bearer");
  }

  /** `"Bearer a b"` has three pieces and is rejected. */
  lemma RejectsThreePieces()
    ensures TryFromHeader(FromAscii("Bearer a b")).Err?
  {
    var s := "Bearer a b";
    AcceptedText(s);
    assert s[7..][1] == ' ';
  }

  /** `"Bearer  a"` (two spaces) splits into three pieces, the middle one empty, and is rejected. */
  lemma RejectsDoubleSpace()
    ensures TryFromHeader(FromAscii("Bearer  a")).Err?
  {
    var s := "Bearer  a";
    AcceptedText(s);
    assert s[7..][0] == ' ';
  }

  /** Another scheme is rejected. */
  lemma RejectsBasicScheme()
    ensures TryFromHeader(FromAscii("Basic abc")).Err?
  {
    var s := "Basic abc";
    AcceptedText(s);
    assert s[..7][1] != 'e';
  }

  /** The scheme is compared case-sensitively: `bearer` is rejected. */
  lemma RejectsLowerCaseScheme()
    ensures TryFromHeader(FromAscii("bearer abc")).Err?
  {
    var s := "bearer abc";
    AcceptedText(s);
    assert s[..7][0] != 'B';
  }
}
