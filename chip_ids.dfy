/**
 * A car's registration string holds one or more RFID chip identifiers joined
 * by ':'. `ChipIds` splits it as Java's `String.split(":")` does: a string
 * without ':' is its own single identifier; otherwise the pieces between the
 * colons are returned with the trailing empty ones removed.
 */
module ChipIds {

  const Separator: char := ':'

  /** Joins `parts` with the separator between consecutive parts. */
  function Join(parts: seq<string>): (s: string)
    requires |parts| >= 1
    decreases |parts|
  {
    if |parts| == 1 then parts[0] else parts[0] + [Separator] + Join(parts[1..])
  }

  /** Index of the first separator in `s`. */
  function FirstSeparator(s: string): (i: nat)
    requires Separator in s
    ensures i < |s| && s[i] == Separator && Separator !in s[..i]
  {
    if s[0] == Separator then 0
    else
      assert Separator in s[1..] by {
        var k :| 0 <= k < |s| && s[k] == Separator;
        assert s[1..][k - 1] == Separator;
      }
      var i := FirstSeparator(s[1..]) + 1;
      assert s[..i] == [s[0]] + s[1..][..i - 1];
      i
  }

  lemma {:induction false} FirstSeparatorAfter(a: string, b: string)
    requires Separator !in a
    ensures Separator in a + [Separator] + b
    ensures FirstSeparator(a + [Separator] + b) == |a|
    decreases |a|
  {
    assert (a + [Separator] + b)[|a|] == Separator;
    if |a| > 0 {
      assert (a + [Separator] + b)[1..] == a[1..] + [Separator] + b;
      FirstSeparatorAfter(a[1..], b);
    }
  }

  /** Every piece of `s` between separators, empty ones included. */
  function Fields(s: string): (parts: seq<string>)
    ensures |parts| >= 1
    ensures forall k :: 0 <= k < |parts| ==> Separator !in parts[k]
    decreases |s|
  {
    if Separator !in s then [s]
    else
      var i := FirstSeparator(s);
      [s[..i]] + Fields(s[i + 1..])
  }

  /** `parts` without its trailing empty strings. */
  function DropTrailingEmpty(parts: seq<string>): (r: seq<string>)
    ensures |r| <= |parts| && r == parts[..|r|]
    ensures forall k :: |r| <= k < |parts| ==> parts[k] == ""
    ensures |r| > 0 ==> r[|r| - 1] != ""
    decreases |parts|
  {
    if |parts| == 0 then []
    else if parts[|parts| - 1] == "" then DropTrailingEmpty(parts[..|parts| - 1])
    else parts
  }

  /** The chip identifiers of a registration string, as `getChipIds` returns them. */
  function GetChipIds(chipId: string): (ids: seq<string>)
    ensures Separator !in chipId ==> ids == [chipId]
    ensures forall k :: 0 <= k < |ids| ==> Separator !in ids[k]
  {
    if Separator !in chipId then [chipId] else DropTrailingEmpty(Fields(chipId))
  }

  /** Splitting undoes joining: the fields of a string joined back give the string. */
  lemma {:induction false} JoinFields(s: string)
    ensures Join(Fields(s)) == s
    decreases |s|
  {
    if Separator in s {
      var i := FirstSeparator(s);
      JoinFields(s[i + 1..]);
      assert Fields(s)[1..] == Fields(s[i + 1..]);
      assert s == s[..i] + [Separator] + s[i + 1..];
    }
  }

  /** The first field of `a`, a separator, then `b` is `a`; the rest are the fields of `b`. */
  lemma FieldsAfterFirst(a: string, b: string)
    requires Separator !in a
    ensures Fields(a + [Separator] + b) == [a] + Fields(b)
  {
    var s := a + [Separator] + b;
    FirstSeparatorAfter(a, b);
    assert s[..|a|] == a;
    assert s[|a| + 1..] == b;
  }

  /** Joining undoes splitting: identifiers without separators come back from their join. */
  lemma {:induction false} FieldsJoin(parts: seq<string>)
    requires |parts| >= 1
    requires forall k :: 0 <= k < |parts| ==> Separator !in parts[k]
    ensures Fields(Join(parts)) == parts
    decreases |parts|
  {
    if |parts| > 1 {
      FieldsAfterFirst(parts[0], Join(parts[1..]));
      FieldsJoin(parts[1..]);
      assert parts == [parts[0]] + parts[1..];
    }
  }

  /**
   * The identifiers of a registration string are its fields up to the last
   * non-empty one, and what is dropped is only empty fields.
   */
  lemma ChipIdsAreLeadingFields(chipId: string)
    ensures var ids := GetChipIds(chipId);
            |ids| <= |Fields(chipId)| && ids == Fields(chipId)[..|ids|]
            && (forall k :: |ids| <= k < |Fields(chipId)| ==> Fields(chipId)[k] == "")
  {
  }

  /**
   * A registration string written as identifiers without separators, the
   * last one not empty, gives back exactly those identifiers.
   */
  lemma ChipIdsOfJoin(ids: seq<string>)
    requires |ids| >= 1 && ids[|ids| - 1] != ""
    requires forall k :: 0 <= k < |ids| ==> Separator !in ids[k]
    ensures GetChipIds(Join(ids)) == ids
  {
    FieldsJoin(ids);
  }
}
