/**
  Message templates. `String.prototype.replace` with a non-global pattern
  rewrites only the first occurrence of the placeholder.
 */
module Templates {
  import opened Wrappers

  /** `pat` occurs in `s` starting at index `i`. */
  predicate OccursAt(s: string, pat: string, i: nat) {
    i + |pat| <= |s| && s[i..i + |pat|] == pat
  }

  /** `i` is the leftmost occurrence of `pat` in `s`. */
  ghost predicate FirstOccurrence(s: string, pat: string, i: nat) {
    OccursAt(s, pat, i) && forall j: nat :: j < i ==> !OccursAt(s, pat, j)
  }

  /** The leftmost occurrence of `pat` in `s` at or after `from`, if any. */
  function IndexFrom(s: string, pat: string, from: nat): (r: Option<nat>)
    ensures r.Some? ==> from <= r.value && OccursAt(s, pat, r.value)
    ensures r.Some? ==> forall j: nat :: from <= j < r.value ==> !OccursAt(s, pat, j)
    ensures r.None? ==> forall j: nat :: from <= j ==> !OccursAt(s, pat, j)
    decreases |s| + 1 - from
  {
    if from + |pat| > |s| then None
    else if OccursAt(s, pat, from) then Some(from)
    else IndexFrom(s, pat, from + 1)
  }

  /** `s.replace(pat, rep)` for a literal, non-global pattern. */
  function ReplaceFirst(s: string, pat: string, rep: string): (r: string)
    ensures (forall i: nat :: !OccursAt(s, pat, i)) ==> r == s
    ensures forall i: nat :: FirstOccurrence(s, pat, i) ==> r == s[..i] + rep + s[i + |pat|..]
  {
    match IndexFrom(s, pat, 0)
    case None => s
    case Some(i) => s[..i] + rep + s[i + |pat|..]
  }

  /** Only the first placeholder is rewritten; a later one is left in the message. */
  lemma OnlyFirstPlaceholderReplaced()
    ensures ReplaceFirst("{MIN} < {MIN}", "{MIN}", "4") == "4 < {MIN}"
    ensures ReplaceFirst("no bound here", "{MIN}", "4") == "no bound here"
  {
    var s := "{MIN} < {MIN}";
    assert FirstOccurrence(s, "{MIN}", 0);
    var t := "no bound here";
    forall i: nat ensures !OccursAt(t, "{MIN}", i) {
      if i + 5 <= |t| {
        assert t[i..i + 5][0] == t[i] != '{';
      }
    }
  }
}

