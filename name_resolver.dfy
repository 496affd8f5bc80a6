/**
 * `get_item_id_by_name`: the id of the first item of a group whose name,
 * trimmed and lower-cased, equals the trimmed, lower-cased target name.
 * The group's item list is what the single remote query returned.
 */
module NameResolver {
  import opened Common

  datatype GroupItem = GroupItem(id: string, name: string)

  /** The ASCII characters `str.isspace()` accepts. */
  predicate IsSpace(c: char)
  {
    c == ' ' || c == '\t' || c == '\n' || c == '\r' || c == '\U{B}' || c == '\U{C}'
    || ('\U{1C}' <= c <= '\U{1F}')
  }

  function TrimStart(s: string): string
  {
    if s != [] && IsSpace(s[0]) then TrimStart(s[1..]) else s
  }

  function TrimEnd(s: string): string
  {
    if s != [] && IsSpace(s[|s| - 1]) then TrimEnd(s[..|s| - 1]) else s
  }

  /** `s.strip()`. */
  function Strip(s: string): string
  {
    TrimEnd(TrimStart(s))
  }

  predicate AllSpace(s: string)
  {
    forall i :: 0 <= i < |s| ==> IsSpace(s[i])
  }

  lemma {:induction false} TrimStartShape(s: string)
    ensures var r := TrimStart(s);
            (r == [] || !IsSpace(r[0])) && |r| <= |s| && r == s[|s| - |r|..] && AllSpace(s[..|s| - |r|])
  {
    if s != [] && IsSpace(s[0]) {
      TrimStartShape(s[1..]);
      var r := TrimStart(s);
      assert s[..|s| - |r|] == [s[0]] + s[1..][..|s| - 1 - |r|];
    }
  }

  lemma {:induction false} TrimEndShape(s: string)
    ensures var r := TrimEnd(s);
            (r == [] || !IsSpace(r[|r| - 1])) && |r| <= |s| && r == s[..|r|] && AllSpace(s[|r|..])
  {
    if s != [] && IsSpace(s[|s| - 1]) {
      var front := s[..|s| - 1];
      TrimEndShape(front);
      var r := TrimEnd(s);
      assert s[|r|..] == front[|r|..] + [s[|s| - 1]];
    }
  }

  /**
   * `s.strip()` removes exactly the leading and trailing whitespace: `s` is
   * the result with runs of whitespace before and after it, and the result
   * neither starts nor ends with whitespace.
   */
  lemma StripShape(s: string)
    ensures var r := Strip(s);
            (r == [] || (!IsSpace(r[0]) && !IsSpace(r[|r| - 1])))
            && exists a, b :: 0 <= a <= b <= |s| && r == s[a..b] && AllSpace(s[..a]) && AllSpace(s[b..])
  {
    var t := TrimStart(s);
    TrimStartShape(s);
    TrimEndShape(t);
    var r := TrimEnd(t);
    var a := |s| - |t|;
    assert r == s[a..a + |r|];
    assert s[a + |r|..] == t[|r|..];
  }

  function LowerChar(c: char): (d: char)
  {
    if 'A' <= c <= 'Z' then (c as int + 32) as char else c
  }

  /** `c` and `d` are the same character, or the same ASCII letter in the two cases. */
  predicate SameUpToCase(c: char, d: char)
  {
    c == d
    || ('A' <= c <= 'Z' && d as int == c as int + 32)
    || ('A' <= d <= 'Z' && c as int == d as int + 32)
  }

  /**
   * `s.lower()` on ASCII letters: no upper-case letter is left, and each
   * character is the input's up to case (which fixes it uniquely).
   */
  function Lower(s: string): (r: string)
    ensures |r| == |s|
    ensures forall i :: 0 <= i < |s| ==> !('A' <= r[i] <= 'Z') && SameUpToCase(s[i], r[i])
  {
    seq(|s|, i requires 0 <= i < |s| => LowerChar(s[i]))
  }

  /** Two strings lower-case to the same string exactly when they agree up to case. */
  lemma LowerEqIff(a: string, b: string)
    ensures Lower(a) == Lower(b) <==> |a| == |b| && forall i :: 0 <= i < |a| ==> SameUpToCase(a[i], b[i])
  {
    if |a| == |b| && forall i :: 0 <= i < |a| ==> SameUpToCase(a[i], b[i]) {
      forall i | 0 <= i < |a| ensures Lower(a)[i] == Lower(b)[i] {
        assert SameUpToCase(a[i], b[i]);
      }
    }
  }

  /** The comparison key: `s.strip().lower()`. */
  function NameKey(s: string): (r: string)
    ensures |r| <= |s|
    ensures forall i :: 0 <= i < |r| ==> !('A' <= r[i] <= 'Z')
  {
    StripShape(s);
    Lower(Strip(s))
  }

  predicate NameMatches(item: GroupItem, target: string)
  {
    NameKey(item.name) == NameKey(target)
  }

  /** The id of the first item whose name matches `target`, if any. */
  function FirstMatch(items: seq<GroupItem>, target: string): Option<string>
  {
    if items == [] then None
    else if NameMatches(items[0], target) then Some(items[0].id)
    else FirstMatch(items[1..], target)
  }

  /**
   * `FirstMatch` finds the first matching item: its id comes from a matching
   * item with no match before it, and there is no result exactly when no item
   * matches.
   */
  lemma {:induction false} FirstMatchIsFirst(items: seq<GroupItem>, target: string)
    ensures FirstMatch(items, target).None? <==> forall i :: 0 <= i < |items| ==> !NameMatches(items[i], target)
    ensures FirstMatch(items, target).Some? ==>
              exists i :: 0 <= i < |items| && NameMatches(items[i], target) && FirstMatch(items, target).value == items[i].id
                          && forall j :: 0 <= j < i ==> !NameMatches(items[j], target)
  {
    if items != [] && !NameMatches(items[0], target) {
      FirstMatchIsFirst(items[1..], target);
      assert forall i :: 1 <= i < |items| ==> items[i] == items[1..][i - 1];
      if FirstMatch(items, target).Some? {
        var i :| 0 <= i < |items[1..]| && NameMatches(items[1..][i], target)
                 && FirstMatch(items, target).value == items[1..][i].id
                 && forall j :: 0 <= j < i ==> !NameMatches(items[1..][j], target);
        assert forall j :: 0 <= j < i + 1 ==> !NameMatches(items[j], target);
      }
    }
  }

  /** The scan with its early return. */
  method GetItemIdByName(items: seq<GroupItem>, target: string) returns (r: Option<string>)
    ensures r == FirstMatch(items, target)
    ensures r.Some? ==> exists i :: 0 <= i < |items| && NameMatches(items[i], target) && r.value == items[i].id
                                    && forall j :: 0 <= j < i ==> !NameMatches(items[j], target)
    ensures r.None? <==> forall i :: 0 <= i < |items| ==> !NameMatches(items[i], target)
  {
    FirstMatchIsFirst(items, target);
    for i := 0 to |items|
      invariant FirstMatch(items, target) == FirstMatch(items[i..], target)
    {
      assert items[i..] == [items[i]] + items[i + 1..];
      if NameKey(items[i].name) == NameKey(target) {
        return Some(items[i].id);
      }
    }
    return None;
  }

  /** Items after the first match are never looked at: appending items does not change a found id. */
  lemma {:induction false} FirstMatchIgnoresRest(items: seq<GroupItem>, rest: seq<GroupItem>, target: string)
    requires FirstMatch(items, target).Some?
    ensures FirstMatch(items + rest, target) == FirstMatch(items, target)
  {
    if !NameMatches(items[0], target) {
      FirstMatchIgnoresRest(items[1..], rest, target);
      assert (items + rest)[1..] == items[1..] + rest;
    }
  }

  /** Targets that agree after trimming and lower-casing resolve to the same id. */
  lemma {:induction false} FirstMatchByKey(items: seq<GroupItem>, t1: string, t2: string)
    requires NameKey(t1) == NameKey(t2)
    ensures FirstMatch(items, t1) == FirstMatch(items, t2)
  {
    if items != [] {
      FirstMatchByKey(items[1..], t1, t2);
    }
  }

  /** `" Alice "`, `"ALICE"` and `"alice"` share one comparison key. */
  lemma SpacingAndCaseIgnored()
    ensures NameKey(" Alice ") == NameKey("ALICE") == NameKey("alice") == "alice"
  {
    assert TrimStart(" Alice ") == "Alice ";
    assert TrimEnd("Alice ") == "Alice";
    assert Strip("ALICE") == "ALICE";
    assert Strip("alice") == "alice";
    assert Lower("Alice") == "alice";
    assert Lower("ALICE") == "alice";
  }
}
