/** `decode_mount_path`: the octal escapes of `/proc/self/mounts`. */
module MountPath {
  import opened Basics

  predicate IsOctal(c: char) { '0' <= c <= '7' }

  function Digit(c: char): nat
    requires IsOctal(c)
  {
    c as int - '0' as int
  }

  /** The code three octal digits spell. */
  function Code(a: nat, b: nat, c: nat): (code: nat)
    requires a < 8 && b < 8 && c < 8
    ensures code < 512
  {
    a * 64 + b * 8 + c
  }

  function CodeOf(a: char, b: char, c: char): (code: nat)
    requires IsOctal(a) && IsOctal(b) && IsOctal(c)
    ensures code < 512
  {
    Code(Digit(a), Digit(b), Digit(c))
  }

  /** What one backslash consumes after itself: up to three characters, octal or not. */
  function Consumed(rest: string): nat { Min(|rest|, 3) }

  /** The decoded text. A backslash whose three followers are not all octal digits stays, and its followers are lost. */
  function Decoded(raw: string): string
    decreases |raw|
  {
    if raw == "" then ""
    else if raw[0] != '\\' then [raw[0]] + Decoded(raw[1..])
    else if |raw| >= 4 && IsOctal(raw[1]) && IsOctal(raw[2]) && IsOctal(raw[3]) then
      [CodeOf(raw[1], raw[2], raw[3]) as char] + Decoded(raw[4..])
    else "\\" + Decoded(raw[1 + Consumed(raw[1..])..])
  }

  /** Three calls of `chars.next()`, keeping the octal digits among them. */
  method TakeDigits(raw: string, start: nat) returns (digits: seq<nat>, i: nat)
    requires start <= |raw|
    ensures i == start + Consumed(raw[start..]) && digits == OctalPrefix(raw[start..], 3)
  {
    digits, i := [], start;
    for tries := 0 to 3
      invariant i == start + Min(|raw| - start, tries)
      invariant digits == OctalPrefix(raw[start..], tries)
    {
      if i < |raw| {
        if IsOctal(raw[i]) {
          digits := digits + [Digit(raw[i])];
        }
        i := i + 1;
      }
    }
  }

  /** Decoding one step: the character produced by the head of a nonempty text, and where the rest starts. */
  lemma DecodedStep(raw: string)
    requires raw != ""
    ensures var rest, digits := raw[1..], OctalPrefix(raw[1..], 3);
            Decoded(raw) ==
              if raw[0] != '\\' then [raw[0]] + Decoded(rest)
              else if |digits| == 3 && digits[0] < 8 && digits[1] < 8 && digits[2] < 8 then
                [Code(digits[0], digits[1], digits[2]) as char] + Decoded(rest[Consumed(rest)..])
              else "\\" + Decoded(rest[Consumed(rest)..])
    ensures forall k :: 0 <= k < |OctalPrefix(raw[1..], 3)| ==> OctalPrefix(raw[1..], 3)[k] < 8
  {
    var rest := raw[1..];
    AllOctal(rest);
    DigitsSmall(rest, 3);
    assert rest[Consumed(rest)..] == raw[1 + Consumed(rest)..];
    if |raw| >= 4 { assert rest[0] == raw[1] && rest[1] == raw[2] && rest[2] == raw[3]; }
  }

  lemma {:induction false} DigitsSmall(rest: string, n: nat)
    ensures forall k :: 0 <= k < |OctalPrefix(rest, n)| ==> OctalPrefix(rest, n)[k] < 8
  {
    if n == 0 {
    } else {
      DigitsSmall(rest, n - 1);
    }
  }

  method DecodeMountPath(raw: string) returns (decoded: string)
    ensures decoded == Decoded(raw)
  {
    hide Decoded, OctalPrefix, Code;
    decoded := "";
    var i := 0;
    EmptyDecodes();
    assert raw[0..] == raw && "" + Decoded(raw) == Decoded(raw);
    while i < |raw|
      invariant i <= |raw|
      invariant Decoded(raw) == decoded + Decoded(raw[i..])
    {
      DecodedStep(raw[i..]);
      assert raw[i..][1..] == raw[i + 1..];
      ghost var before := decoded;
      var current := raw[i];
      i := i + 1;
      if current != '\\' {
        decoded := decoded + [current];
      } else {
        var digits;
        ghost var start := i;
        digits, i := TakeDigits(raw, i);
        assert raw[start..][Consumed(raw[start..])..] == raw[i..];
        if |digits| == 3 {
          decoded := decoded + [Code(digits[0], digits[1], digits[2]) as char];
        } else {
          decoded := decoded + "\\";
        }
      }
      assert before + ([decoded[|before|]] + Decoded(raw[i..])) == decoded + Decoded(raw[i..]);
    }
    assert raw[i..] == "" && decoded + "" == decoded;
  }

  lemma EmptyDecodes()
    ensures Decoded("") == ""
  {
  }

  /** The digits among the first `n` characters. */
  function OctalPrefix(rest: string, n: nat): seq<nat> {
    if n == 0 then []
    else OctalPrefix(rest, n - 1) + if n <= |rest| && IsOctal(rest[n - 1]) then [Digit(rest[n - 1])] else []
  }

  lemma AllOctal(rest: string)
    ensures var digits := OctalPrefix(rest, 3);
            if |rest| >= 3 && IsOctal(rest[0]) && IsOctal(rest[1]) && IsOctal(rest[2])
            then digits == [Digit(rest[0]), Digit(rest[1]), Digit(rest[2])] else |digits| < 3
  {
    assert OctalPrefix(rest, 0) == [];
    assert OctalPrefix(rest, 2) ==
      OctalPrefix(rest, 1) + if 2 <= |rest| && IsOctal(rest[1]) then [Digit(rest[1])] else [];
    assert OctalPrefix(rest, 1) == if 1 <= |rest| && IsOctal(rest[0]) then [Digit(rest[0])] else [];
  }

  // ----- encoding and back -----

  function OctalDigit(n: nat): (c: char)
    requires n < 8
    ensures IsOctal(c) && Digit(c) == n
  {
    ('0' as int + n) as char
  }

  /** A mount table writer: escapes the chosen characters as three octal digits and copies the rest. */
  function Encoded(text: string, escape: char -> bool): string
    requires forall c :: escape(c) ==> c as int < 512
  {
    if text == "" then ""
    else
      var code := text[0] as int;
      (if escape(text[0]) then ['\\', OctalDigit(code / 64), OctalDigit(code / 8 % 8), OctalDigit(code % 8)]
       else [text[0]])
      + Encoded(text[1..], escape)
  }

  lemma OctalRoundTrip(c: char)
    requires c as int < 512
    ensures var code := c as int;
            CodeOf(OctalDigit(code / 64), OctalDigit(code / 8 % 8), OctalDigit(code % 8)) as char == c
  {
    var code := c as int;
    assert code == code / 64 * 64 + code / 8 % 8 * 8 + code % 8;
  }

  /** Decoding undoes every encoder that escapes the backslash, whatever else it escapes. */
  lemma {:induction false} DecodeEncode(text: string, escape: char -> bool)
    requires escape('\\') && forall c :: escape(c) ==> c as int < 512
    ensures Decoded(Encoded(text, escape)) == text
  {
    if text == "" {
    } else {
      var c, rest := text[0], Encoded(text[1..], escape);
      var code := c as int;
      DecodeEncode(text[1..], escape);
      if escape(c) {
        var head := ['\\', OctalDigit(code / 64), OctalDigit(code / 8 % 8), OctalDigit(code % 8)];
        OctalRoundTrip(c);
        assert (head + rest)[4..] == rest;
      } else {
        assert ([c] + rest)[1..] == rest;
      }
      assert text == [c] + text[1..];
    }
  }

  /** An encoder is undone on every text if and only if it escapes the backslash: otherwise two backslashes in a row
      come back as one. */
  lemma UndoneIffBackslashEscaped(escape: char -> bool)
    requires forall c :: escape(c) ==> c as int < 512
    ensures (forall text :: Decoded(Encoded(text, escape)) == text) <==> escape('\\')
  {
    if escape('\\') {
      forall text
        ensures Decoded(Encoded(text, escape)) == text
      {
        DecodeEncode(text, escape);
      }
    } else {
      var text := "\\\\";
      assert text[1..] == "\\" && "\\"[1..] == "";
      assert Encoded("\\", escape) == "\\" + Encoded("", escape) == "\\";
      assert Encoded(text, escape) == text;
      assert Decoded(text) == "\\" + Decoded(text[2..]);
      assert |Decoded(text)| == 1;
    }
  }

  /** A backslash not followed by three octal digits stays and takes the next three characters, or what is left of
      them, with it. */
  lemma MalformedSwallows(followers: string, rest: string)
    requires |followers| == 3 || (|followers| < 3 && rest == "")
    requires |followers| == 3 ==> exists i :: 0 <= i < 3 && !IsOctal(followers[i])
    ensures Decoded("\\" + followers + rest) == "\\" + Decoded(rest)
  {
    var raw := "\\" + followers + rest;
    assert raw[1..] == followers + rest;
    assert raw[1 + Consumed(raw[1..])..] == rest;
    if |followers| == 3 {
      assert raw[1] == followers[0] && raw[2] == followers[1] && raw[3] == followers[2];
    }
  }

  lemma {:induction false} NeverLonger(raw: string)
    ensures |Decoded(raw)| <= |raw|
    decreases |raw|
  {
    if raw == "" {
    } else {
      if raw[0] != '\\' { NeverLonger(raw[1..]); }
      else if |raw| >= 4 { NeverLonger(raw[4..]); }
      else { NeverLonger(raw[1 + Consumed(raw[1..])..]); }
    }
  }

  /** A text decodes to itself exactly when no backslash is followed by anything. */
  lemma {:induction false} FixedIff(raw: string)
    ensures Decoded(raw) == raw <==> forall i :: 0 <= i < |raw| - 1 ==> raw[i] != '\\'
    decreases |raw|
  {
    if raw == "" {
    } else {
      var rest := raw[1..];
      if raw[0] != '\\' {
        FixedIff(rest);
        assert raw == [raw[0]] + rest;
        assert Decoded(raw) == raw <==> Decoded(rest) == rest by {
          if Decoded(raw) == raw { assert Decoded(rest) == Decoded(raw)[1..]; }
        }
        assert forall i :: 0 < i < |raw| - 1 ==> raw[i] == rest[i - 1];
        assert forall i :: 0 <= i < |rest| - 1 ==> rest[i] == raw[i + 1];
      } else if |raw| == 1 {
        assert Decoded(raw) == "\\" + Decoded("");
      } else {
        if |raw| >= 4 { NeverLonger(raw[4..]); } else { NeverLonger(raw[1 + Consumed(rest)..]); }
        assert |Decoded(raw)| < |raw|;
      }
    }
  }
}
