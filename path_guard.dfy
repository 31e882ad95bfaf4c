/** The vault containment test: a case-insensitive string-prefix comparison of a canonical
    file name against the vault path. It looks at characters only; it does not require the
    prefix to end at a path separator. */
module PathGuard {
  import opened Text

  /** `fullName.StartsWith(vault, StringComparison.OrdinalIgnoreCase)`. */
  predicate InVault(fullName: string, vault: string) {
    StartsWithIgnoreCase(fullName, vault)
  }

  /** Anything spelled as the vault path followed by more characters passes, whatever they are:
      `"/notes-private/x"` passes for a vault `"/notes"`. The guarantee is no stronger than that. */
  lemma ExtensionInVault(vault: string, rest: string)
    ensures InVault(vault + rest, vault)
  {
    assert (vault + rest)[..|vault|] == vault;
  }

  /** A sibling directory whose name extends the vault's passes the check. */
  lemma SiblingPasses()
    ensures InVault("/notes-private/secret.md", "/notes")
  {
    ExtensionInVault("/notes", "-private/secret.md");
    assert "/notes" + "-private/secret.md" == "/notes-private/secret.md";
  }

  /** Letter case is ignored on both sides. */
  lemma CaseIgnored()
    ensures InVault("/NOTES/a.md", "/notes")
  {
    assert "/NOTES/a.md"[..6] == "/NOTES";
  }
}
