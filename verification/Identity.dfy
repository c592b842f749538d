/** Names attached to application identities (identity.rs): the user's short name
    and the installation's permanent random suffix. */
module Identity {
  import opened Wrappers

  const SUFFIX_LEN: nat := 8
  const NAME_MAX_LEN: nat := 24
  const IDENTITY_SEPARATOR := '_'

  predicate AsciiAlphanumeric(c: char) {
    '0' <= c <= '9' || 'A' <= c <= 'Z' || 'a' <= c <= 'z'
  }

  /** ASCII digits and letters but `0 O o 1 l I`. */
  predicate Unambiguous(c: char) { AsciiAlphanumeric(c) && c !in {'0', 'O', 'o', '1', 'l', 'I'} }

  predicate ValidSuffix(suffix: string) {
    |suffix| == SUFFIX_LEN && forall i :: 0 <= i < |suffix| ==> Unambiguous(suffix[i])
  }

  predicate ValidName(name: string) {
    0 < |name| <= NAME_MAX_LEN && forall i :: 0 <= i < |name| ==> AsciiAlphanumeric(name[i]) || name[i] == '-'
  }

  function DisplayIdentity(name: string, suffix: string): string { name + [IDENTITY_SEPARATOR] + suffix }

  /** The position of the first separator. */
  function FindSeparator(s: string): (r: Option<nat>)
    ensures r.None? <==> IDENTITY_SEPARATOR !in s
    ensures r.Some? ==> r.value < |s| && s[r.value] == IDENTITY_SEPARATOR && IDENTITY_SEPARATOR !in s[..r.value]
  {
    if s == [] then None
    else if s[0] == IDENTITY_SEPARATOR then Some(0)
    else
      var r := FindSeparator(s[1..]);
      assert r.Some? ==> s[..r.value + 1] == [s[0]] + s[1..][..r.value];
      if r.None? then None else Some(r.value + 1)
  }

  /** `split_display_identity`: the short name and the suffix. */
  function SplitDisplayIdentity(display: string): Option<(string, string)> {
    var at := FindSeparator(display);
    if at.None? then None
    else
      var name, suffix := display[..at.value], display[at.value + 1..];
      if IDENTITY_SEPARATOR in suffix || !ValidName(name) || !ValidSuffix(suffix) then None else Some((name, suffix))
  }

  lemma SeparatorFollowsTheName(name: string, suffix: string)
    requires ValidName(name)
    ensures var display := DisplayIdentity(name, suffix);
            && FindSeparator(display) == Some(|name|)
            && display[..|name|] == name && display[|name| + 1..] == suffix
  {
    var display := DisplayIdentity(name, suffix);
    assert forall i :: 0 <= i < |name| ==> display[i] == name[i];
    assert display[|name|] == IDENTITY_SEPARATOR;
    var at := FindSeparator(display).value;
  }

  /** Splitting undoes displaying for exactly the names and suffixes the program
      allows, and what it yields displays as what it was given. */
  lemma SplitUndoesDisplay(name: string, suffix: string)
    ensures SplitDisplayIdentity(DisplayIdentity(name, suffix)) == Some((name, suffix))
       <==> ValidName(name) && ValidSuffix(suffix)
    ensures ValidName(name) && !ValidSuffix(suffix) ==> SplitDisplayIdentity(DisplayIdentity(name, suffix)) == None
  {
    if ValidName(name) {
      SeparatorFollowsTheName(name, suffix);
    }
  }

  lemma DisplayUndoesSplit(display: string)
    ensures var parts := SplitDisplayIdentity(display);
            parts.Some? ==> DisplayIdentity(parts.value.0, parts.value.1) == display
                            && ValidName(parts.value.0) && ValidSuffix(parts.value.1)
  {
    var at := FindSeparator(display);
    if at.Some? {
      assert display == display[..at.value] + [display[at.value]] + display[at.value + 1..];
    }
  }
}
