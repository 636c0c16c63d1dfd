/**
 * Parsing of the two comma-separated settings the handlers read:
 * the domain allow-list and the names of request headers to remove.
 * Both handlers split on ',', trim every item and drop the empty ones;
 * header names are lower-cased as well.
 */
module Config {
  import opened JsString

  /** `parts.map(s => s.trim()).filter(Boolean)`. */
  function TrimmedItems(parts: seq<string>): (r: seq<string>)
    ensures |r| <= |parts|
    ensures forall x | x in r :: x != "" && IsTrimmed(x)
    ensures forall x :: x in r <==> x != "" && exists p :: p in parts && Trim(p) == x
  {
    if parts == [] then []
    else
      var t := Trim(parts[0]);
      var rest := TrimmedItems(parts[1..]);
      assert forall p :: p in parts <==> p == parts[0] || p in parts[1..];
      (if t == "" then [] else [t]) + rest
  }

  /** `parts.map(h => h.trim().toLowerCase()).filter(h => h)`. */
  function LoweredItems(parts: seq<string>): (r: seq<string>)
    ensures |r| <= |parts|
    ensures forall x | x in r :: x != "" && IsTrimmed(x) && AsciiLower(x) == x
    ensures forall x :: x in r <==> x != "" && exists p :: p in parts && AsciiLower(Trim(p)) == x
  {
    if parts == [] then []
    else
      var t := AsciiLower(Trim(parts[0]));
      AsciiLowerTrimmed(Trim(parts[0]));
      var rest := LoweredItems(parts[1..]);
      assert forall p :: p in parts <==> p == parts[0] || p in parts[1..];
      (if t == "" then [] else [t]) + rest
  }

  /** The allow-list: the trimmed, non-empty comma-separated items of the setting. */
  function AllowedTargets(setting: string): (allowed: seq<string>)
    ensures forall x | x in allowed :: x != "" && IsTrimmed(x)
    ensures forall x :: x in allowed <==> x != "" && exists p :: p in Split(setting, ',') && Trim(p) == x
  {
    TrimmedItems(Split(setting, ','))
  }

  /** The header-removal list: the trimmed, lower-cased, non-empty comma-separated items of the setting. */
  function HeadersToRemove(setting: string): (names: seq<string>)
    ensures forall x | x in names :: x != "" && IsTrimmed(x) && AsciiLower(x) == x
    ensures forall x :: x in names <==> x != "" && exists p :: p in Split(setting, ',') && AsciiLower(Trim(p)) == x
  {
    LoweredItems(Split(setting, ','))
  }

  /** A setting made only of commas and white space yields an empty allow-list (which disables the domain check). */
  lemma BlankAllowList(setting: string)
    requires forall k | 0 <= k < |setting| :: setting[k] == ',' || IsSpace(setting[k])
    ensures AllowedTargets(setting) == []
  {
    var parts := Split(setting, ',');
    forall p | p in parts ensures Trim(p) == "" {
      BlankPart(setting, parts, p);
    }
    BlankItems(parts);
  }

  /** Likewise a header-removal setting made only of commas and white space removes nothing. */
  lemma BlankRemovalList(setting: string)
    requires forall k | 0 <= k < |setting| :: setting[k] == ',' || IsSpace(setting[k])
    ensures HeadersToRemove(setting) == []
  {
    var parts := Split(setting, ',');
    forall p | p in parts ensures Trim(p) == "" {
      BlankPart(setting, parts, p);
    }
    BlankLoweredItems(parts);
  }

  lemma {:induction false} BlankLoweredItems(parts: seq<string>)
    requires forall p | p in parts :: Trim(p) == ""
    ensures LoweredItems(parts) == []
  {
    if parts != [] {
      BlankLoweredItems(parts[1..]);
    }
  }

  lemma {:induction false} BlankItems(parts: seq<string>)
    requires forall p | p in parts :: Trim(p) == ""
    ensures TrimmedItems(parts) == []
  {
    if parts != [] {
      BlankItems(parts[1..]);
    }
  }

  /** Every character of a part of `setting` is a character of `setting`. */
  lemma {:induction false} BlankPart(setting: string, parts: seq<string>, p: string)
    requires forall k | 0 <= k < |setting| :: setting[k] == ',' || IsSpace(setting[k])
    requires parts == Split(setting, ',') && p in parts
    ensures Trim(p) == ""
  {
    assert forall c | c in p :: IsSpace(c) by {
      JoinContains(parts, ',', p);
    }
  }

  /** Every character of a part of a join is a character of the join. */
  lemma {:induction false} JoinContains(parts: seq<string>, sep: char, p: string)
    requires p in parts
    ensures forall c | c in p :: c in Join(parts, sep)
  {
    if |parts| > 1 && p != parts[0] {
      JoinContains(parts[1..], sep, p);
    }
  }
}
