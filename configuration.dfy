/**
 * The configuration record (Configuration/ConfigurationFile.cs): its
 * defaults and the expansion of the database path, where every `~\` is
 * replaced by the working directory followed by `\`. The working directory
 * is a parameter.
 */
module Configuration {

  datatype ConfigurationFile = ConfigurationFile(
    ipAddress: string,
    remotePort: int,
    localPort: int,
    databasePath: string)

  /** A fresh configuration, and the one Load falls back to. */
  const DEFAULTS: ConfigurationFile := ConfigurationFile("172.16.4.1", 8958, 10000, "~\\database.db")

  /** The abbreviation of the working directory in a database path. */
  const HOME: string := "~\\"

  /** pat occurs in s starting at index i. */
  predicate OccursAt(s: string, pat: string, i: int)
  {
    0 <= i && i + |pat| <= |s| && s[i..i + |pat|] == pat
  }

  /** No occurrence of pat starts anywhere in s. */
  ghost predicate NoOccurrence(s: string, pat: string)
  {
    forall i :: !OccursAt(s, pat, i)
  }

  /** An occurrence in the tail of s is one in s, one place further on. */
  lemma TailOccurrence(s: string, pat: string, i: int)
    requires |s| > 0 && OccursAt(s[1..], pat, i)
    ensures OccursAt(s, pat, i + 1)
  {
    assert s[1..][i..i + |pat|] == s[i + 1..i + 1 + |pat|];
  }

  lemma NoOccurrenceTail(s: string, pat: string)
    requires |s| > 0 && NoOccurrence(s, pat)
    ensures NoOccurrence(s[1..], pat)
  {
    forall i ensures !OccursAt(s[1..], pat, i) {
      if OccursAt(s[1..], pat, i) {
        TailOccurrence(s, pat, i);
      }
    }
  }

  /**
   * `String.Replace(pat, rep)` with ordinal comparison: scanning left to
   * right, each occurrence of pat is replaced and the scan resumes after it.
   */
  function ReplaceAll(s: string, pat: string, rep: string): string
    requires |pat| > 0
    decreases |s|
  {
    if |s| < |pat| then s
    else if s[..|pat|] == pat then rep + ReplaceAll(s[|pat|..], pat, rep)
    else [s[0]] + ReplaceAll(s[1..], pat, rep)
  }

  /** GetFullDatabasePath, for the given working directory. */
  function GetFullDatabasePath(c: ConfigurationFile, cwd: string): string
  {
    ReplaceAll(c.databasePath, HOME, cwd + "\\")
  }

  /** A string without an occurrence is left as it is. */
  lemma {:induction false} NoOccurrenceUnchanged(s: string, pat: string, rep: string)
    requires |pat| > 0 && NoOccurrence(s, pat)
    ensures ReplaceAll(s, pat, rep) == s
    decreases |s|
  {
    if |s| >= |pat| {
      assert !OccursAt(s, pat, 0);
      assert s[..|pat|] == s[0..0 + |pat|];
      NoOccurrenceTail(s, pat);
      NoOccurrenceUnchanged(s[1..], pat, rep);
    }
  }

  /**
   * The first `~\` is replaced and the scan goes on after it, so the
   * replacement text is never scanned again. `~\` cannot overlap itself,
   * so the first occurrence in a + HOME + b is the one after a when a has
   * none.
   */
  lemma {:induction false} FirstHomeReplaced(a: string, b: string, rep: string)
    requires NoOccurrence(a, HOME)
    ensures ReplaceAll(a + HOME + b, HOME, rep) == a + rep + ReplaceAll(b, HOME, rep)
    decreases |a|
  {
    var s := a + HOME + b;
    if |a| == 0 {
      assert s == HOME + b;
      assert s[..2] == HOME;
      assert s[2..] == b;
    } else {
      assert s[..2] != HOME by {
        if |a| >= 2 {
          assert !OccursAt(a, HOME, 0);
          assert s[..2] == a[0..0 + 2];
        } else {
          assert s[1] == HOME[0];
        }
      }
      NoOccurrenceTail(a, HOME);
      assert s[1..] == a[1..] + HOME + b;
      FirstHomeReplaced(a[1..], b, rep);
      assert a == [a[0]] + a[1..];
    }
  }

  /** A path that does not use `~\` is returned unchanged; a lone `~` is kept. */
  lemma PathWithoutHomeUnchanged(c: ConfigurationFile, cwd: string)
    requires NoOccurrence(c.databasePath, HOME)
    ensures GetFullDatabasePath(c, cwd) == c.databasePath
  {
    NoOccurrenceUnchanged(c.databasePath, HOME, cwd + "\\");
  }

  /** The default database lives in the working directory. */
  lemma DefaultPathExpands(cwd: string)
    ensures DEFAULTS.ipAddress == "172.16.4.1" && DEFAULTS.remotePort == 8958 && DEFAULTS.localPort == 10000
    ensures GetFullDatabasePath(DEFAULTS, cwd) == cwd + "\\database.db"
  {
    assert DEFAULTS.databasePath == HOME + "database.db";
    HomeThenName("database.db", cwd);
  }

  /** A path of `~\` and a name without `~` expands to the name in the working directory. */
  lemma HomeThenName(name: string, cwd: string)
    requires '~' !in name
    ensures ReplaceAll(HOME + name, HOME, cwd + "\\") == cwd + "\\" + name
  {
    assert HOME + name == "" + HOME + name;
    FirstHomeReplaced("", name, cwd + "\\");
    FileNameHasNoHome(name);
    NoOccurrenceUnchanged(name, HOME, cwd + "\\");
  }

  /** A name without `~` has no `~\`. */
  lemma FileNameHasNoHome(name: string)
    requires '~' !in name
    ensures NoOccurrence(name, HOME)
  {
    forall i ensures !OccursAt(name, HOME, i) {
      if 0 <= i && i + 2 <= |name| {
        assert name[i..i + 2][0] == name[i] && name[i] in name;
      }
    }
  }

  /** Replacing `~\` by itself changes nothing, even where the text would form new occurrences. */
  lemma {:induction false} ReplaceByItself(s: string)
    ensures ReplaceAll(s, HOME, HOME) == s
    decreases |s|
  {
    if |s| >= 2 {
      if s[..2] == HOME {
        ReplaceByItself(s[2..]);
        assert s == s[..2] + s[2..];
      } else {
        ReplaceByItself(s[1..]);
        assert s == [s[0]] + s[1..];
      }
    }
  }
}
