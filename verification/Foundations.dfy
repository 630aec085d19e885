/** Results of operations that the scripts abort by raising. */
module Outcomes {
  datatype Option<+T> = None | Some(value: T)

  /** A call either returns a value or raises; the reason is kept only where a caller can tell it apart. */
  datatype Result<+T, +E> = Ok(value: T) | Rejected(reason: E)
}

/** Bytes, big-endian integers and length-framed fields. */
module Bytes {
  type byte = x: int | 0 <= x < 256

  /** What `len(...).to_bytes(8, "big")` can express: longer values make the call raise. */
  const FIELD_LIMIT: nat := 0x1_0000_0000_0000_0000

  type Field = s: seq<byte> | |s| < FIELD_LIMIT

  /** A text of ASCII characters as bytes. */
  function Ascii(s: string): (r: seq<byte>)
    requires forall i :: 0 <= i < |s| ==> s[i] < 128 as char
    ensures |r| == |s| && forall i :: 0 <= i < |s| ==> r[i] == s[i] as int
  {
    seq(|s|, i requires 0 <= i < |s| => s[i] as int)
  }

  function Power256(width: nat): (r: nat)
    ensures r > 0
  {
    if width == 0 then 1 else 256 * Power256(width - 1)
  }

  /** `n.to_bytes(width, "big")`, also `struct.pack("!H")` and `struct.pack("!Q")`. */
  function BigEndian(n: nat, width: nat): (r: seq<byte>)
    requires n < Power256(width)
    ensures |r| == width
    decreases width
  {
    if width == 0 then [] else BigEndian(n / 256, width - 1) + [n % 256]
  }

  function FromBigEndian(s: seq<byte>): (n: nat)
    ensures n < Power256(|s|)
  {
    if s == [] then 0 else FromBigEndian(s[..|s| - 1]) * 256 + s[|s| - 1]
  }

  lemma {:induction false} BigEndianRoundTrip(n: nat, width: nat)
    requires n < Power256(width)
    ensures FromBigEndian(BigEndian(n, width)) == n
    decreases width
  {
    if width > 0 {
      BigEndianRoundTrip(n / 256, width - 1);
      var r := BigEndian(n, width);
      assert r[..|r| - 1] == BigEndian(n / 256, width - 1);
    }
  }

  lemma {:induction false} FromBigEndianRoundTrip(s: seq<byte>)
    ensures BigEndian(FromBigEndian(s), |s|) == s
  {
    if s != [] {
      FromBigEndianRoundTrip(s[..|s| - 1]);
      assert s == s[..|s| - 1] + [s[|s| - 1]];
    }
  }

  /** One byte is its own value, and the bytes before others weigh 256 times as much for each of those. */
  lemma {:induction false} HighBytesFirst(high: seq<byte>, low: seq<byte>)
    ensures FromBigEndian(high + low) == FromBigEndian(high) * Power256(|low|) + FromBigEndian(low)
    ensures |low| == 1 ==> FromBigEndian(low) == low[0] && Power256(|low|) == 256
    decreases |low|
  {
    if low == [] {
      assert high + low == high;
    } else {
      var init, last := low[..|low| - 1], low[|low| - 1];
      assert (high + low)[..|high + low| - 1] == high + init;
      HighBytesFirst(high, init);
      Shifted(FromBigEndian(high), Power256(|init|), FromBigEndian(init), last);
    }
  }

  lemma Shifted(high: nat, weight: nat, low: nat, last: nat)
    ensures (high * weight + low) * 256 + last == high * (256 * weight) + (low * 256 + last)
  {
  }

  lemma Power256Of8()
    ensures Power256(8) == FIELD_LIMIT
  {
  }

  lemma AppendAssociates<T>(a: seq<T>, b: seq<T>, c: seq<T>)
    ensures (a + b) + c == a + (b + c)
  {
  }

  lemma AppendCancels<T>(a: seq<T>, x: seq<T>, b: seq<T>, y: seq<T>)
    requires |a| == |b| && a + x == b + y
    ensures a == b && x == y
  {
    assert a == (a + x)[..|a|] && b == (b + y)[..|b|];
    assert x == (a + x)[|a|..] && y == (b + y)[|b|..];
  }

  lemma TailOf<T>(s: seq<T>, i: nat)
    requires i < |s|
    ensures s[i..] != [] && s[i..][0] == s[i] && s[i..][1..] == s[i + 1..]
  {
  }

  lemma Slices<T>(a: seq<T>, b: seq<T>, c: seq<T>)
    ensures (a + b + c)[..|a|] == a
    ensures (a + b + c)[|a|..|a| + |b|] == b
    ensures (a + b + c)[|a| + |b|..] == c
  {
  }

  function Flatten<T>(parts: seq<seq<T>>): seq<T> {
    if parts == [] then [] else parts[0] + Flatten(parts[1..])
  }

  /** One length-framed field: an 8-byte big-endian length, then the bytes. */
  function Framed(s: Field): (r: seq<byte>)
    ensures |r| == 8 + |s|
  {
    Power256Of8();
    BigEndian(|s|, 8) + s
  }

  /** Where the length and the bytes of a framed field are. */
  lemma FramedParts(s: Field)
    ensures FromBigEndian(Framed(s)[..8]) == |s| && Framed(s)[8..] == s
  {
    Power256Of8();
    BigEndianRoundTrip(|s|, 8);
  }

  /** A framed field can be read back off the front of any stream in only one way. */
  lemma FramedIsPrefixFree(a: Field, x: seq<byte>, b: Field, y: seq<byte>)
    requires Framed(a) + x == Framed(b) + y
    ensures a == b && x == y
  {
    Power256Of8();
    AppendAssociates(BigEndian(|a|, 8), a, x);
    AppendAssociates(BigEndian(|b|, 8), b, y);
    AppendCancels(BigEndian(|a|, 8), a + x, BigEndian(|b|, 8), b + y);
    BigEndianRoundTrip(|a|, 8);
    BigEndianRoundTrip(|b|, 8);
    AppendCancels(a, x, b, y);
  }
}

/** Looking for one text inside another. */
module Texts {
  /** `needle in hay`. */
  predicate Contains(hay: string, needle: string) {
    needle <= hay || (hay != "" && Contains(hay[1..], needle))
  }

  /** Containing means being somewhere in it. */
  lemma {:induction false} ContainsMeans(hay: string, needle: string)
    ensures Contains(hay, needle) <==> exists i :: 0 <= i <= |hay| && needle <= hay[i..]
  {
    if needle <= hay {
      assert hay[0..] == hay;
    } else if hay != "" {
      ContainsMeans(hay[1..], needle);
      if i :| 0 <= i <= |hay[1..]| && needle <= hay[1..][i..] {
        assert hay[1..][i..] == hay[i + 1..];
      }
      if i :| 0 <= i <= |hay| && needle <= hay[i..] {
        assert i > 0 by { assert hay[0..] == hay; }
        assert hay[1..][i - 1..] == hay[i..];
      }
    }
  }

  /** `text.replace(part, replacement)`. */
  function ReplaceAll(text: string, part: string, replacement: string): string {
    if part == "" then
      if text == "" then replacement else replacement + [text[0]] + ReplaceAll(text[1..], part, replacement)
    else if part <= text then replacement + ReplaceAll(text[|part|..], part, replacement)
    else if text == "" then ""
    else [text[0]] + ReplaceAll(text[1..], part, replacement)
  }

  /** A text without the part is left alone. */
  lemma {:induction false} ReplaceAllWithoutMatch(text: string, part: string, replacement: string)
    requires !Contains(text, part)
    ensures ReplaceAll(text, part, replacement) == text
  {
    if text != "" {
      ReplaceAllWithoutMatch(text[1..], part, replacement);
    }
  }

  /** `separator.join(parts)`. */
  function JoinWith(parts: seq<string>, separator: string): string
    requires parts != []
  {
    if |parts| == 1 then parts[0] else parts[0] + separator + JoinWith(parts[1..], separator)
  }

  /** `part` occurs in `kept + part` at its end only. */
  predicate EndsAtFirst(kept: string, part: string) {
    forall i :: 0 <= i < |kept| ==> !(part <= (kept + part)[i..])
  }

  lemma LongerFirstPart(rest: seq<string>, c: char, separator: string)
    requires rest != []
    ensures JoinWith([[c] + rest[0]] + rest[1..], separator) == [c] + JoinWith(rest, separator)
  {
    var longer := [[c] + rest[0]] + rest[1..];
    if |rest| > 1 {
      assert longer[1..] == rest[1..];
      assert longer[0] + separator + JoinWith(longer[1..], separator)
          == [c] + (rest[0] + separator + JoinWith(rest[1..], separator));
    }
  }

  lemma StillEndsAtFirst(text: string, part: string, rest: seq<string>)
    requires text != "" && !(part <= text) && |rest| > 1 && JoinWith(rest, part) == text[1..]
    requires EndsAtFirst(rest[0], part)
    ensures EndsAtFirst([text[0]] + rest[0], part)
  {
    var kept := [text[0]] + rest[0];
    assert text == (kept + part) + JoinWith(rest[1..], part);
    forall i | 0 <= i < |kept| ensures !(part <= (kept + part)[i..]) {
      if i > 0 {
        assert (kept + part)[i..] == (rest[0] + part)[i - 1..];
      } else {
        assert (kept + part)[0..] == kept + part;
      }
    }
  }

  /** `kept` are the parts of `text` between the occurrences of `part`, found from the left. */
  ghost predicate AreKept(kept: seq<string>, text: string, part: string) {
    && kept != [] && JoinWith(kept, part) == text
    && !Contains(kept[|kept| - 1], part)
    && forall i :: 0 <= i < |kept| - 1 ==> EndsAtFirst(kept[i], part)
  }

  lemma KeptAfterMatch(rest: seq<string>, text: string, part: string)
    requires part != "" && part <= text && AreKept(rest, text[|part|..], part)
    ensures AreKept([""] + rest, text, part)
  {
    var kept := [""] + rest;
    assert kept[1..] == rest && text == part + text[|part|..];
  }

  lemma KeptOneMore(rest: seq<string>, text: string, part: string)
    requires text != "" && !(part <= text) && AreKept(rest, text[1..], part)
    ensures AreKept([[text[0]] + rest[0]] + rest[1..], text, part)
  {
    LongerFirstPart(rest, text[0], part);
    assert text == [text[0]] + text[1..];
    if |rest| > 1 {
      StillEndsAtFirst(text, part, rest);
    } else {
      assert [[text[0]] + rest[0]] + rest[1..] == [text];
    }
  }

  /**
    What `replace` does: the text is some kept parts with `part` between them, found from the left, and the result is
    the same kept parts with the replacement between them.
   */
  lemma {:induction false} ReplaceAllExchanges(text: string, part: string, replacement: string)
    returns (kept: seq<string>)
    requires part != ""
    ensures AreKept(kept, text, part) && JoinWith(kept, replacement) == ReplaceAll(text, part, replacement)
    decreases |text|
  {
    if part <= text {
      var rest := ReplaceAllExchanges(text[|part|..], part, replacement);
      KeptAfterMatch(rest, text, part);
      kept := [""] + rest;
      assert kept[1..] == rest && "" + replacement == replacement;
    } else if text == "" {
      kept := [""];
    } else {
      var rest := ReplaceAllExchanges(text[1..], part, replacement);
      KeptOneMore(rest, text, part);
      LongerFirstPart(rest, text[0], replacement);
      kept := [[text[0]] + rest[0]] + rest[1..];
    }
  }
}
