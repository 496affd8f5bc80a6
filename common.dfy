/** Shared vocabulary: optional values, Python truthiness, `str.join` and `str(int)`. */
module Common {

  datatype Option<+T> = None | Some(value: T)

  /** Python truthiness of an optional string: both `None` and `""` are falsy. */
  predicate Truthy(s: Option<string>)
  {
    s.Some? && s.value != ""
  }

  /** `sep.join(parts)`. */
  function Join(sep: string, parts: seq<string>): string
  {
    if |parts| == 0 then ""
    else if |parts| == 1 then parts[0]
    else parts[0] + sep + Join(sep, parts[1..])
  }

  /** `line` occurs in `text` starting at index `k`. */
  predicate OccursAt(line: string, text: string, k: int)
  {
    0 <= k <= |text| - |line| && text[k..k + |line|] == line
  }

  /** An occurrence in `text` is still one, shifted by `|front|`, in `front + text + back`. */
  lemma OccursInside(line: string, front: string, text: string, back: string, k: int)
    requires OccursAt(line, text, k)
    ensures OccursAt(line, front + text + back, |front| + k)
  {
    var whole := front + text + back;
    assert whole[|front| + k..|front| + k + |line|] == text[k..k + |line|];
  }

  /** Where `parts[i]` starts in `sep.join(parts)`: after the earlier parts, each followed by `sep`. */
  function JoinOffset(sep: string, parts: seq<string>, i: nat): nat
    requires i < |parts|
  {
    if i == 0 then 0 else |parts[0]| + |sep| + JoinOffset(sep, parts[1..], i - 1)
  }

  /** The first part of `sep.join(parts)` starts it, followed by `sep` when more parts follow. */
  lemma JoinHead(sep: string, parts: seq<string>)
    requires |parts| > 0
    ensures OccursAt(parts[0], Join(sep, parts), 0)
    ensures |parts| > 1 ==> OccursAt(sep, Join(sep, parts), |parts[0]|)
    ensures |parts| == 1 ==> |parts[0]| == |Join(sep, parts)|
  {
    if |parts| > 1 {
      var text := Join(sep, parts);
      assert text == parts[0] + sep + Join(sep, parts[1..]);
      assert text[..|parts[0]|] == parts[0];
      assert text[|parts[0]|..|parts[0]| + |sep|] == sep;
    }
  }

  /**
   * The layout of `sep.join(parts)`, part by part: each part sits at its
   * offset, and the last part ends the text.
   */
  lemma {:induction false} JoinPartAt(sep: string, parts: seq<string>, i: nat)
    requires i < |parts|
    ensures OccursAt(parts[i], Join(sep, parts), JoinOffset(sep, parts, i))
    ensures i + 1 == |parts| ==> JoinOffset(sep, parts, i) + |parts[i]| == |Join(sep, parts)|
  {
    if i == 0 {
      JoinHead(sep, parts);
    } else {
      var tail, front := parts[1..], parts[0] + sep;
      JoinPartAt(sep, tail, i - 1);
      assert tail[i - 1] == parts[i];
      assert Join(sep, parts) == front + Join(sep, tail) + "";
      OccursInside(parts[i], front, Join(sep, tail), "", JoinOffset(sep, tail, i - 1));
    }
  }

  /**
   * Between consecutive parts of `sep.join(parts)` sits one `sep`, and the
   * next part starts right after it.
   */
  lemma {:induction false} JoinSepAfter(sep: string, parts: seq<string>, i: nat)
    requires i + 1 < |parts|
    ensures OccursAt(sep, Join(sep, parts), JoinOffset(sep, parts, i) + |parts[i]|)
    ensures JoinOffset(sep, parts, i + 1) == JoinOffset(sep, parts, i) + |parts[i]| + |sep|
  {
    if i == 0 {
      JoinHead(sep, parts);
    } else {
      var tail, front := parts[1..], parts[0] + sep;
      JoinSepAfter(sep, tail, i - 1);
      assert tail[i - 1] == parts[i];
      assert Join(sep, parts) == front + Join(sep, tail) + "";
      OccursInside(sep, front, Join(sep, tail), "", JoinOffset(sep, tail, i - 1) + |parts[i]|);
    }
  }

  /** The whole layout of `sep.join(parts)` around part `i`. */
  lemma {:induction false} JoinLayout(sep: string, parts: seq<string>, i: nat)
    requires i < |parts|
    ensures var text, k := Join(sep, parts), JoinOffset(sep, parts, i);
            && OccursAt(parts[i], text, k)
            && (i + 1 < |parts| ==>
                  OccursAt(sep, text, k + |parts[i]|) && JoinOffset(sep, parts, i + 1) == k + |parts[i]| + |sep|)
            && (i + 1 == |parts| ==> k + |parts[i]| == |text|)
  {
    JoinPartAt(sep, parts, i);
    if i + 1 < |parts| {
      JoinSepAfter(sep, parts, i);
    }
  }

  /** The layout of `sep.join(parts)` placed after a prefix `front`. */
  lemma {:induction false} JoinLayoutAfter(front: string, sep: string, parts: seq<string>, i: nat)
    requires i < |parts|
    ensures var text, k := front + Join(sep, parts), |front| + JoinOffset(sep, parts, i);
            && OccursAt(parts[i], text, k)
            && (i + 1 < |parts| ==>
                  OccursAt(sep, text, k + |parts[i]|) && |front| + JoinOffset(sep, parts, i + 1) == k + |parts[i]| + |sep|)
            && (i + 1 == |parts| ==> k + |parts[i]| == |text|)
  {
    var joined := Join(sep, parts);
    JoinLayout(sep, parts, i);
    assert front + joined == front + joined + "";
    OccursInside(parts[i], front, joined, "", JoinOffset(sep, parts, i));
    if i + 1 < |parts| {
      OccursInside(sep, front, joined, "", JoinOffset(sep, parts, i) + |parts[i]|);
    }
  }

  function DigitChar(d: nat): (c: char)
    requires d < 10
    ensures '0' <= c <= '9' && c as int - '0' as int == d
  {
    ('0' as int + d) as char
  }

  /** `str(n)` for a non-negative integer: decimal digits, no leading zero. */
  function NatToString(n: nat): (s: string)
    ensures |s| > 0
    ensures forall i :: 0 <= i < |s| ==> '0' <= s[i] <= '9'
    ensures |s| > 1 ==> s[0] != '0'
  {
    if n < 10 then [DigitChar(n)] else NatToString(n / 10) + [DigitChar(n % 10)]
  }

  /** The value of a string of decimal digits, read left to right. */
  function DecimalValue(s: string): nat
    requires forall i :: 0 <= i < |s| ==> '0' <= s[i] <= '9'
  {
    if s == [] then 0 else DecimalValue(s[..|s| - 1]) * 10 + (s[|s| - 1] as int - '0' as int)
  }

  /** The count written into a header reads back as that count. */
  lemma {:induction false} DecimalRoundTrip(n: nat)
    ensures DecimalValue(NatToString(n)) == n
  {
    if n >= 10 {
      var s := NatToString(n);
      assert s[..|s| - 1] == NatToString(n / 10);
      DecimalRoundTrip(n / 10);
    }
  }
}
