/**
  The Credential Writer (add_youtube_credentials.py): upserts a project's
  YouTube OAuth client id and client secret into the plaintext store
  `api_keys.txt`, replacing any earlier entries for the same project.
 */
module CredentialWriter {
  import opened StoreText

  const IdSuffix: string := "_YouTube_Client_ID"
  const SecretSuffix: string := "_YouTube_Client_Secret"

  /** Number of secret characters the confirmation message shows. */
  const PreviewLength: nat := 10

  /** The argument count `main` accepts: the program name and three arguments. */
  const WriterArgCount: nat := 4

  /** The store file in the working directory, before the run: missing, or present with its text. */
  datatype StoreFile = Absent | Present(text: string)

  function Min(a: nat, b: nat): nat {
    if a <= b then a else b
  }

  /** Python's `str.startswith`. */
  function StartsWith(line: string, prefix: string): (b: bool)
    ensures b <==> prefix <= line
    ensures b ==> |prefix| <= |line|
  {
    |prefix| <= |line| && line[..|prefix|] == prefix
  }

  predicate NoNewline(s: string) {
    '\n' !in s
  }

  /** The id key: the project name followed by `_YouTube_Client_ID`. */
  function IdKey(projectName: string): (key: string)
    ensures StartsWith(key, projectName) && key[|projectName|..] == IdSuffix
  {
    projectName + IdSuffix
  }

  /** The secret key: the project name followed by `_YouTube_Client_Secret`. */
  function SecretKey(projectName: string): (key: string)
    ensures StartsWith(key, projectName) && key[|projectName|..] == SecretSuffix
  {
    projectName + SecretSuffix
  }

  /** One stored entry, `<key>=<value>` and a line terminator. */
  function Entry(key: string, value: string): (line: string)
    ensures StartsWith(line, key + "=") && Terminated(line)
    ensures |line| == |key| + |value| + 2
  {
    assert (key + "=" + value + "\n")[..|key| + 1] == key + "=";
    key + "=" + value + "\n"
  }

  /** The line is an earlier entry for one of the project's two keys, and is dropped. */
  function IsStale(line: string, projectName: string): (stale: bool)
    ensures stale ==> StartsWith(line, projectName) && |line| > |IdKey(projectName)|
  {
    var idPrefix := IdKey(projectName) + "=";
    var secretPrefix := SecretKey(projectName) + "=";
    assert projectName <= idPrefix && projectName <= secretPrefix;
    StartsWith(line, idPrefix) || StartsWith(line, secretPrefix)
  }

  /** The list comprehension of add_youtube_credentials: the lines that are not stale, in their order. */
  function RemoveStale(lines: seq<string>, projectName: string): (kept: seq<string>)
    ensures |kept| <= |lines|
    ensures forall i :: 0 <= i < |kept| ==> !IsStale(kept[i], projectName)
  {
    if lines == [] then []
    else
      var rest := RemoveStale(lines[1..], projectName);
      if IsStale(lines[0], projectName) then rest else [lines[0]] + rest
  }

  /**
    The lines add_youtube_credentials writes back: the kept lines, then the new
    id and secret entries. No earlier entry of the project is left before them.
   */
  function Upsert(lines: seq<string>, projectName: string, clientId: string, clientSecret: string): (result: seq<string>)
    ensures 2 <= |result| <= |lines| + 2
    ensures result[|result| - 2] == Entry(IdKey(projectName), clientId)
    ensures result[|result| - 1] == Entry(SecretKey(projectName), clientSecret)
    ensures forall i :: 0 <= i < |result| - 2 ==> !IsStale(result[i], projectName)
  {
    RemoveStale(lines, projectName) + [Entry(IdKey(projectName), clientId), Entry(SecretKey(projectName), clientSecret)]
  }

  /** What `readlines` yields for the store: lines that join back to its text; a missing store reads as no lines. */
  function ReadStore(store: StoreFile): (lines: seq<string>)
    ensures IsLineSequence(lines)
    ensures Concat(lines) == (if store.Present? then store.text else [])
  {
    match store
    case Absent => []
    case Present(text) => ReadLines(text)
  }

  /**
    The store after a run, the specification of AddYouTubeCredentials: always
    present, holding the concatenated upserted lines. Its text is the kept
    lines' text followed by the two new entries, so it ends with '\n'.
   */
  function WriteStore(store: StoreFile, projectName: string, clientId: string, clientSecret: string): (after: StoreFile)
    ensures after.Present? && EndsCleanly(after.text)
    ensures after.text == Concat(RemoveStale(ReadStore(store), projectName))
      + Entry(IdKey(projectName), clientId) + Entry(SecretKey(projectName), clientSecret)
  {
    var kept := RemoveStale(ReadStore(store), projectName);
    var idEntry := Entry(IdKey(projectName), clientId);
    var secretEntry := Entry(SecretKey(projectName), clientSecret);
    AppendedText(kept, idEntry, secretEntry);
    Present(Concat(kept + [idEntry, secretEntry]))
  }

  /** The text of lines with two lines appended is their text followed by the two; it ends cleanly when the last does. */
  lemma AppendedText(lines: seq<string>, first: string, second: string)
    requires Terminated(second)
    ensures Concat(lines + [first, second]) == Concat(lines) + first + second
    ensures EndsCleanly(Concat(lines + [first, second]))
  {
    ConcatAppend(lines, [first, second]);
    assert [first, second][1..] == [second];
    ConcatSingle(second);
    var text := Concat(lines) + first + second;
    assert text[|text| - 1] == second[|second| - 1];
  }

  /** What the confirmation message shows of the secret: `client_secret[:10]`. */
  function SecretPreview(clientSecret: string): (shown: string)
    ensures |shown| == Min(PreviewLength, |clientSecret|)
    ensures shown <= clientSecret
  {
    clientSecret[..Min(PreviewLength, |clientSecret|)]
  }

  /** Number of lines that start with `prefix`. */
  function CountStartingWith(lines: seq<string>, prefix: string): nat {
    if lines == [] then 0
    else (if StartsWith(lines[0], prefix) then 1 else 0) + CountStartingWith(lines[1..], prefix)
  }

  /**
    add_youtube_credentials: reads the store, drops the stale entries, appends
    the two new entries to the line list and overwrites the store. Returns the
    new store and the secret preview the confirmation message prints.
   */
  method AddYouTubeCredentials(store: StoreFile, projectName: string, clientId: string, clientSecret: string)
    returns (written: StoreFile, secretShown: string)
    ensures written == Present(Concat(Upsert(ReadStore(store), projectName, clientId, clientSecret)))
    ensures secretShown == SecretPreview(clientSecret) + "..."
  {
    var clientIdKey := IdKey(projectName);
    var clientSecretKey := SecretKey(projectName);
    var lines: seq<string> := [];
    if store.Present? {
      lines := ReadLines(store.text);
    }
    lines := RemoveStale(lines, projectName);
    lines := lines + [Entry(clientIdKey, clientId)];
    lines := lines + [Entry(clientSecretKey, clientSecret)];
    assert lines == Upsert(ReadStore(store), projectName, clientId, clientSecret);
    written := Present(Concat(lines));
    secretShown := SecretPreview(clientSecret) + "...";
  }

  /**
    `main`: with any argument count but four it exits with status 1 and leaves
    the store as it was; otherwise it runs the upsert and exits with status 0.
   */
  method RunWriter(argv: seq<string>, store: StoreFile) returns (exitCode: int, after: StoreFile)
    ensures exitCode == 0 || exitCode == 1
    ensures exitCode == 1 <==> |argv| != WriterArgCount
    ensures |argv| != WriterArgCount ==> after == store
    ensures |argv| == WriterArgCount ==> after == WriteStore(store, argv[1], argv[2], argv[3])
  {
    if |argv| != WriterArgCount {
      return 1, store;
    }
    var secretShown;
    after, secretShown := AddYouTubeCredentials(store, argv[1], argv[2], argv[3]);
    exitCode := 0;
  }

  // ---------------------------------------------------------------------------
  // Key derivation

  /** The derived keys are the project name with the fixed suffixes, and tell projects apart. */
  lemma KeysDerived(projectName: string, other: string)
    ensures IdKey(projectName)[..|projectName|] == projectName && IdKey(projectName)[|projectName|..] == "_YouTube_Client_ID"
    ensures SecretKey(projectName)[..|projectName|] == projectName && SecretKey(projectName)[|projectName|..] == "_YouTube_Client_Secret"
    ensures IdKey(projectName) == IdKey(other) ==> projectName == other
    ensures SecretKey(projectName) == SecretKey(other) ==> projectName == other
    ensures IdKey(projectName) != SecretKey(other)
  {
    if IdKey(projectName) == IdKey(other) {
      assert |projectName| == |other|;
      assert projectName == IdKey(projectName)[..|projectName|];
    }
    if SecretKey(projectName) == SecretKey(other) {
      assert |projectName| == |other|;
      assert projectName == SecretKey(projectName)[..|projectName|];
    }
    assert IdKey(projectName)[|IdKey(projectName)| - 1] == IdSuffix[17] == 'D';
    assert SecretKey(other)[|SecretKey(other)| - 1] == SecretSuffix[21] == 't';
  }

  /** The value can be read back from an entry: it is what lies between the `=` after the key and the terminator. */
  lemma EntryValue(key: string, value: string)
    ensures var line := Entry(key, value);
      line[..|key|] == key && line[|key|] == '=' && line[|key| + 1..|line| - 1] == value
  {
    var line := Entry(key, value);
    assert line == key + "=" + value + "\n";
    assert line[|key| + 1..|line| - 1] == value;
  }

  /** No line is an entry for both of a project's keys: `<id_key>=` and `<secret_key>=` differ at the character after `_YouTube_Client_`. */
  lemma KeyPrefixesDisjoint(line: string, projectName: string)
    ensures !(StartsWith(line, IdKey(projectName) + "=") && StartsWith(line, SecretKey(projectName) + "="))
  {
    var k := |projectName| + 16;
    var idPrefix := IdKey(projectName) + "=";
    var secretPrefix := SecretKey(projectName) + "=";
    assert idPrefix[k] == IdSuffix[16] == 'I';
    assert secretPrefix[k] == SecretSuffix[16] == 'S';
  }

  /** A new entry is stale for its own project, so a later run replaces it. */
  lemma EntriesAreStale(projectName: string, clientId: string, clientSecret: string)
    ensures StartsWith(Entry(IdKey(projectName), clientId), IdKey(projectName) + "=")
    ensures StartsWith(Entry(SecretKey(projectName), clientSecret), SecretKey(projectName) + "=")
    ensures !StartsWith(Entry(SecretKey(projectName), clientSecret), IdKey(projectName) + "=")
    ensures !StartsWith(Entry(IdKey(projectName), clientId), SecretKey(projectName) + "=")
  {
    var idEntry := Entry(IdKey(projectName), clientId);
    var secretEntry := Entry(SecretKey(projectName), clientSecret);
    assert idEntry[..|IdKey(projectName) + "="|] == IdKey(projectName) + "=";
    assert secretEntry[..|SecretKey(projectName) + "="|] == SecretKey(projectName) + "=";
    KeyPrefixesDisjoint(idEntry, projectName);
    KeyPrefixesDisjoint(secretEntry, projectName);
  }

  /** The secret preview is the first min(10, |secret|) characters; a short secret is therefore shown whole. */
  lemma PreviewShowsAtMostTen(clientSecret: string)
    ensures |SecretPreview(clientSecret)| <= PreviewLength
    ensures SecretPreview(clientSecret) == clientSecret[..Min(PreviewLength, |clientSecret|)]
    ensures |clientSecret| <= PreviewLength ==> SecretPreview(clientSecret) == clientSecret
    ensures |clientSecret| > PreviewLength ==> SecretPreview(clientSecret) != clientSecret
  {
  }

  // ---------------------------------------------------------------------------
  // The filter

  /** Filtering distributes over concatenation: it keeps the relative order of the lines. */
  lemma {:induction false} RemoveStaleAppend(a: seq<string>, b: seq<string>, projectName: string)
    ensures RemoveStale(a + b, projectName) == RemoveStale(a, projectName) + RemoveStale(b, projectName)
  {
    if a == [] {
      assert a + b == b;
    } else {
      assert (a + b)[0] == a[0];
      assert (a + b)[1..] == a[1..] + b;
      RemoveStaleAppend(a[1..], b, projectName);
    }
  }

  /** Every kept line comes from the input, and it is kept exactly as often as it occurs there. */
  lemma {:induction false} RemoveStaleCounts(lines: seq<string>, projectName: string)
    ensures forall line :: line in RemoveStale(lines, projectName) ==> line in lines
    ensures forall line :: multiset(RemoveStale(lines, projectName))[line]
                           == if IsStale(line, projectName) then 0 else multiset(lines)[line]
  {
    if lines != [] {
      RemoveStaleCounts(lines[1..], projectName);
      assert lines == [lines[0]] + lines[1..];
    }
  }

  /** Lines with no stale entry among them pass the filter unchanged. */
  lemma {:induction false} RemoveStaleKeepsUnrelated(lines: seq<string>, projectName: string)
    requires forall i :: 0 <= i < |lines| ==> !IsStale(lines[i], projectName)
    ensures RemoveStale(lines, projectName) == lines
  {
    if lines != [] {
      RemoveStaleKeepsUnrelated(lines[1..], projectName);
    }
  }

  /** Filtering twice is filtering once. */
  lemma RemoveStaleIdempotent(lines: seq<string>, projectName: string)
    ensures RemoveStale(RemoveStale(lines, projectName), projectName) == RemoveStale(lines, projectName)
  {
    RemoveStaleKeepsUnrelated(RemoveStale(lines, projectName), projectName);
  }

  /** A kept input line i sits in the result at the number of kept lines before it. */
  lemma KeptLineAt(lines: seq<string>, projectName: string, i: nat)
    requires i < |lines| && !IsStale(lines[i], projectName)
    ensures var pos := |RemoveStale(lines[..i], projectName)|;
      pos < |RemoveStale(lines, projectName)| && RemoveStale(lines, projectName)[pos] == lines[i]
  {
    assert lines == lines[..i] + ([lines[i]] + lines[i + 1..]);
    RemoveStaleAppend(lines[..i], [lines[i]] + lines[i + 1..], projectName);
    RemoveStaleAppend([lines[i]], lines[i + 1..], projectName);
  }

  /** A kept line i adds one to the count of kept lines before every later position j. */
  lemma KeptCountGrows(lines: seq<string>, projectName: string, i: nat, j: nat)
    requires i < j <= |lines| && !IsStale(lines[i], projectName)
    ensures |RemoveStale(lines[..i], projectName)| < |RemoveStale(lines[..j], projectName)|
  {
    assert lines[..j] == lines[..i] + ([lines[i]] + lines[i + 1..j]);
    RemoveStaleAppend(lines[..i], [lines[i]] + lines[i + 1..j], projectName);
    RemoveStaleAppend([lines[i]], lines[i + 1..j], projectName);
  }

  /**
    Two kept input lines i < j appear in the result, at positions in the same
    order: the filter keeps the relative order of the lines it keeps.
   */
  lemma KeptLinesInOrder(lines: seq<string>, projectName: string, i: nat, j: nat)
    requires i < j < |lines|
    requires !IsStale(lines[i], projectName) && !IsStale(lines[j], projectName)
    ensures var kept := RemoveStale(lines, projectName);
      var pi := |RemoveStale(lines[..i], projectName)|;
      var pj := |RemoveStale(lines[..j], projectName)|;
      pi < pj < |kept| && kept[pi] == lines[i] && kept[pj] == lines[j]
  {
    KeptLineAt(lines, projectName, i);
    KeptLineAt(lines, projectName, j);
    KeptCountGrows(lines, projectName, i, j);
  }

  // ---------------------------------------------------------------------------
  // The upsert

  /**
    The result is the input without the project's stale entries, in order,
    followed by exactly the id entry and then the secret entry.
   */
  lemma UpsertLayout(lines: seq<string>, projectName: string, clientId: string, clientSecret: string)
    ensures var result := Upsert(lines, projectName, clientId, clientSecret);
      |result| == |RemoveStale(lines, projectName)| + 2 <= |lines| + 2
      && result[..|result| - 2] == RemoveStale(lines, projectName)
      && result[|result| - 2] == IdKey(projectName) + "=" + clientId + "\n"
      && result[|result| - 1] == SecretKey(projectName) + "=" + clientSecret + "\n"
  {
  }

  /** Every input line that is not one of the project's entries survives, as often as it occurred. */
  lemma UpsertKeepsUnrelated(lines: seq<string>, projectName: string, clientId: string, clientSecret: string, line: string)
    requires line in lines && !IsStale(line, projectName)
    ensures line in Upsert(lines, projectName, clientId, clientSecret)
    ensures multiset(Upsert(lines, projectName, clientId, clientSecret))[line] == multiset(lines)[line]
  {
    var kept := RemoveStale(lines, projectName);
    var entries := [Entry(IdKey(projectName), clientId), Entry(SecretKey(projectName), clientSecret)];
    EntriesAreStale(projectName, clientId, clientSecret);
    RemoveStaleCounts(lines, projectName);
    assert multiset(kept + entries) == multiset(kept) + multiset(entries);
    assert multiset(entries)[line] == 0;
  }

  /** An absent or empty store ends up holding exactly the two new entries. */
  lemma UpsertOnEmptyStore(store: StoreFile, projectName: string, clientId: string, clientSecret: string)
    requires store == Absent || store == Present("")
    ensures Upsert(ReadStore(store), projectName, clientId, clientSecret)
      == [IdKey(projectName) + "=" + clientId + "\n", SecretKey(projectName) + "=" + clientSecret + "\n"]
  {
    assert ReadStore(store) == [];
  }

  lemma {:induction false} CountAppend(a: seq<string>, b: seq<string>, prefix: string)
    ensures CountStartingWith(a + b, prefix) == CountStartingWith(a, prefix) + CountStartingWith(b, prefix)
  {
    if a == [] {
      assert a + b == b;
    } else {
      assert (a + b)[1..] == a[1..] + b;
      CountAppend(a[1..], b, prefix);
    }
  }

  lemma {:induction false} CountNone(lines: seq<string>, prefix: string)
    requires forall i :: 0 <= i < |lines| ==> !StartsWith(lines[i], prefix)
    ensures CountStartingWith(lines, prefix) == 0
  {
    if lines != [] {
      CountNone(lines[1..], prefix);
    }
  }

  /**
    After the upsert exactly one line starts with `<id_key>=` and exactly one
    with `<secret_key>=`, and they carry the values just supplied.
   */
  lemma UpsertSingleEntryPerKey(lines: seq<string>, projectName: string, clientId: string, clientSecret: string)
    ensures var result := Upsert(lines, projectName, clientId, clientSecret);
      CountStartingWith(result, IdKey(projectName) + "=") == 1
      && CountStartingWith(result, SecretKey(projectName) + "=") == 1
      && (forall line :: line in result && StartsWith(line, IdKey(projectName) + "=") ==> line == Entry(IdKey(projectName), clientId))
      && (forall line :: line in result && StartsWith(line, SecretKey(projectName) + "=") ==> line == Entry(SecretKey(projectName), clientSecret))
  {
    var kept := RemoveStale(lines, projectName);
    var idEntry := Entry(IdKey(projectName), clientId);
    var secretEntry := Entry(SecretKey(projectName), clientSecret);
    var idPrefix := IdKey(projectName) + "=";
    var secretPrefix := SecretKey(projectName) + "=";
    EntriesAreStale(projectName, clientId, clientSecret);
    CountNone(kept, idPrefix);
    CountNone(kept, secretPrefix);
    CountAppend(kept, [idEntry, secretEntry], idPrefix);
    CountAppend(kept, [idEntry, secretEntry], secretPrefix);
    assert [idEntry, secretEntry][1..] == [secretEntry];
    assert [secretEntry][1..] == [];
    assert CountStartingWith([secretEntry], idPrefix) == 0;
    assert CountStartingWith([secretEntry], secretPrefix) == 1;
    assert CountStartingWith([idEntry, secretEntry], idPrefix) == 1;
    assert CountStartingWith([idEntry, secretEntry], secretPrefix) == 1;
  }

  /** Upserting (a, b) and then (c, d) for one project is the same as upserting (c, d) alone. */
  lemma UpsertTwiceKeepsLatest(lines: seq<string>, projectName: string, a: string, b: string, c: string, d: string)
    ensures Upsert(Upsert(lines, projectName, a, b), projectName, c, d) == Upsert(lines, projectName, c, d)
  {
    var kept := RemoveStale(lines, projectName);
    var entries := [Entry(IdKey(projectName), a), Entry(SecretKey(projectName), b)];
    EntriesAreStale(projectName, a, b);
    RemoveStaleAppend(kept, entries, projectName);
    RemoveStaleIdempotent(lines, projectName);
    assert entries == [entries[0]] + [entries[1]];
    RemoveStaleAppend([entries[0]], [entries[1]], projectName);
    assert RemoveStale(entries, projectName) == [];
  }

  /** Repeating the same upsert changes nothing. */
  lemma UpsertIdempotent(lines: seq<string>, projectName: string, clientId: string, clientSecret: string)
    ensures var once := Upsert(lines, projectName, clientId, clientSecret);
      Upsert(once, projectName, clientId, clientSecret) == once
  {
    UpsertTwiceKeepsLatest(lines, projectName, clientId, clientSecret, clientId, clientSecret);
  }

  // ---------------------------------------------------------------------------
  // Isolation between projects

  /** '=' occurs in the text exactly once, as its last character. */
  predicate EqualsOnlyAtEnd(prefix: string) {
    prefix != [] && prefix[|prefix| - 1] == '=' && forall j :: 0 <= j < |prefix| - 1 ==> prefix[j] != '='
  }

  lemma KeyPrefixEqualsOnlyAtEnd(projectName: string, suffix: string)
    requires '=' !in projectName
    requires suffix == IdSuffix || suffix == SecretSuffix
    ensures EqualsOnlyAtEnd(projectName + suffix + "=")
  {
    var prefix := projectName + suffix + "=";
    assert '=' !in suffix;
    forall j | 0 <= j < |prefix| - 1 ensures prefix[j] != '=' {
      if j < |projectName| {
        assert prefix[j] == projectName[j];
      } else {
        assert prefix[j] == suffix[j - |projectName|];
      }
    }
  }

  /** Two prefixes of one line that each end at their only '=' are the same prefix. */
  lemma SharedPrefixIsEqual(line: string, p: string, q: string)
    requires EqualsOnlyAtEnd(p) && EqualsOnlyAtEnd(q)
    requires StartsWith(line, p) && StartsWith(line, q)
    ensures p == q
  {
    assert line[|p| - 1] == p[|p| - 1] && line[|q| - 1] == q[|q| - 1];
    assert forall j :: 0 <= j < |p| - 1 ==> line[j] == p[j];
    assert forall j :: 0 <= j < |q| - 1 ==> line[j] == q[j];
    assert |p| == |q|;
  }

  /** A key prefix determines its project name and its suffix. */
  lemma KeyPrefixDeterminesProject(a: string, sa: string, b: string, sb: string)
    requires sa == IdSuffix || sa == SecretSuffix
    requires sb == IdSuffix || sb == SecretSuffix
    requires a + sa + "=" == b + sb + "="
    ensures a == b && sa == sb
  {
    var p := a + sa + "=";
    assert p[|p| - 2] == sa[|sa| - 1];
    assert p[|p| - 2] == sb[|sb| - 1];
    assert IdSuffix[17] == 'D' && SecretSuffix[21] == 't';
    assert p[..|a|] == a && p[..|b|] == b;
  }

  /**
    A line that is an entry of two projects whose names contain no '=' is an
    entry of one project: a run for one project never removes another's entries.
   */
  lemma EntryBelongsToOneProject(line: string, a: string, b: string)
    requires '=' !in a && '=' !in b
    ensures IsStale(line, a) && IsStale(line, b) ==> a == b
  {
    if IsStale(line, a) && IsStale(line, b) {
      var sa := if StartsWith(line, IdKey(a) + "=") then IdSuffix else SecretSuffix;
      var sb := if StartsWith(line, IdKey(b) + "=") then IdSuffix else SecretSuffix;
      assert StartsWith(line, a + sa + "=") && StartsWith(line, b + sb + "=");
      KeyPrefixEqualsOnlyAtEnd(a, sa);
      KeyPrefixEqualsOnlyAtEnd(b, sb);
      SharedPrefixIsEqual(line, a + sa + "=", b + sb + "=");
      KeyPrefixDeterminesProject(a, sa, b, sb);
    }
  }

  /** An upsert for project b leaves every entry of another project a exactly as often as it was. */
  lemma UpsertIsolatesProjects(lines: seq<string>, a: string, b: string, clientId: string, clientSecret: string, line: string)
    requires a != b && '=' !in a && '=' !in b
    requires line in lines && IsStale(line, a)
    ensures line in Upsert(lines, b, clientId, clientSecret)
    ensures multiset(Upsert(lines, b, clientId, clientSecret))[line] == multiset(lines)[line]
  {
    EntryBelongsToOneProject(line, a, b);
    UpsertKeepsUnrelated(lines, b, clientId, clientSecret, line);
  }

  /** A stale line is not in the upserted lines, unless it is one of the two new entries. */
  lemma StaleLineRemoved(lines: seq<string>, projectName: string, clientId: string, clientSecret: string, line: string)
    requires IsStale(line, projectName)
    requires line != Entry(IdKey(projectName), clientId) && line != Entry(SecretKey(projectName), clientSecret)
    ensures line !in Upsert(lines, projectName, clientId, clientSecret)
  {
    var result := Upsert(lines, projectName, clientId, clientSecret);
    forall i | 0 <= i < |result| ensures result[i] != line {
      if i < |result| - 2 {
        assert !IsStale(result[i], projectName);
      }
    }
  }

  /** An entry of the project named `<id_key of p>=<rest>` is stale for project p. */
  lemma LongerNameIsStale(projectName: string, rest: string, value: string)
    ensures IsStale(Entry(IdKey(IdKey(projectName) + "=" + rest), value), projectName)
  {
    var prefix := IdKey(projectName) + "=";
    var tail := rest + IdSuffix + "=" + value + "\n";
    assert Entry(IdKey(prefix + rest), value) == prefix + tail;
    StartsWithExtended(prefix, tail, prefix);
  }

  /**
    Without the restriction on '=' isolation fails: the id entry of project
    `P_YouTube_Client_ID=Q` starts with `P_YouTube_Client_ID=`, so a run for
    project `P` deletes it.
   */
  lemma EqualsSignBreaksIsolation()
    ensures var line := Entry(IdKey("P_YouTube_Client_ID=Q"), "v");
      IsStale(line, "P") && line !in Upsert([line], "P", "x", "y")
  {
    var line := Entry(IdKey("P_YouTube_Client_ID=Q"), "v");
    assert IsStale(line, "P") by {
      assert "P_YouTube_Client_ID=Q" == IdKey("P") + "=" + "Q";
      LongerNameIsStale("P", "Q", "v");
    }
    assert |line| == 42;
    assert line != Entry(IdKey("P"), "x") && line != Entry(SecretKey("P"), "y") by {
      assert |Entry(IdKey("P"), "x")| == 22 && |Entry(SecretKey("P"), "y")| == 26;
    }
    StaleLineRemoved([line], "P", "x", "y", line);
  }

  // ---------------------------------------------------------------------------
  // The store file across runs

  lemma EntryIsLine(key: string, value: string)
    requires NoNewline(key) && NoNewline(value)
    ensures IsLine(Entry(key, value)) && Terminated(Entry(key, value))
  {
    NoNewlineJoin(key, "=");
    JoinedLine(key + "=", value);
  }

  lemma KeysHaveNoNewline(projectName: string)
    requires NoNewline(projectName)
    ensures NoNewline(IdKey(projectName)) && NoNewline(SecretKey(projectName))
  {
    assert '\n' !in IdSuffix && '\n' !in SecretSuffix;
  }

  /** The upsert of terminated lines, with arguments free of '\n', is terminated lines again. */
  lemma UpsertAllTerminated(lines: seq<string>, projectName: string, clientId: string, clientSecret: string)
    requires AllTerminated(lines)
    requires NoNewline(projectName) && NoNewline(clientId) && NoNewline(clientSecret)
    ensures AllTerminated(Upsert(lines, projectName, clientId, clientSecret))
  {
    var result := Upsert(lines, projectName, clientId, clientSecret);
    var kept := RemoveStale(lines, projectName);
    RemoveStaleCounts(lines, projectName);
    KeysHaveNoNewline(projectName);
    EntryIsLine(IdKey(projectName), clientId);
    EntryIsLine(SecretKey(projectName), clientSecret);
    forall i | 0 <= i < |result| ensures IsLine(result[i]) && Terminated(result[i]) {
      if i < |kept| {
        assert result[i] == kept[i] && kept[i] in lines;
      }
    }
  }

  /**
    When the store is missing or its text ends with a line terminator, and the
    arguments contain no '\n', reading the written store back yields exactly
    the upserted lines, and the written text again ends cleanly.
   */
  lemma RereadWrittenStore(store: StoreFile, projectName: string, clientId: string, clientSecret: string)
    requires store.Present? ==> EndsCleanly(store.text)
    requires NoNewline(projectName) && NoNewline(clientId) && NoNewline(clientSecret)
    ensures var after := WriteStore(store, projectName, clientId, clientSecret);
      ReadStore(after) == Upsert(ReadStore(store), projectName, clientId, clientSecret)
      && EndsCleanly(after.text)
  {
    if store.Present? {
      ReadLinesTerminated(store.text);
    }
    UpsertAllTerminated(ReadStore(store), projectName, clientId, clientSecret);
    ConcatOfTerminated(Upsert(ReadStore(store), projectName, clientId, clientSecret));
  }

  /**
    On a store that ends cleanly, two runs for one project, with values
    (a, b) and then (c, d), leave the same file as the second run alone.
   */
  lemma RerunKeepsLatest(store: StoreFile, projectName: string, a: string, b: string, c: string, d: string)
    requires store.Present? ==> EndsCleanly(store.text)
    requires NoNewline(projectName) && NoNewline(a) && NoNewline(b)
    ensures WriteStore(WriteStore(store, projectName, a, b), projectName, c, d) == WriteStore(store, projectName, c, d)
  {
    RereadWrittenStore(store, projectName, a, b);
    UpsertTwiceKeepsLatest(ReadStore(store), projectName, a, b, c, d);
  }

  /** The kept lines are the kept lines before the last one, then the last one, when the filter keeps it. */
  lemma KeptEndsWithLast(lines: seq<string>, projectName: string)
    requires lines != [] && !IsStale(lines[|lines| - 1], projectName)
    ensures RemoveStale(lines, projectName)
      == RemoveStale(lines[..|lines| - 1], projectName) + [lines[|lines| - 1]]
  {
    var n := |lines|;
    assert lines == lines[..n - 1] + [lines[n - 1]];
    RemoveStaleAppend(lines[..n - 1], [lines[n - 1]], projectName);
  }

  /** Writing `front`, the last line and the two entries gives the text of `front`, the fused line and the secret entry. */
  lemma FusedText(front: seq<string>, last: string, idEntry: string, secretEntry: string)
    ensures Concat(front + [last] + [idEntry, secretEntry]) == Concat(front + [last + idEntry, secretEntry])
  {
    assert front + [last] + [idEntry, secretEntry] == front + [last, idEntry, secretEntry];
    assert Concat(front + [last, idEntry, secretEntry]) == Concat(front) + (last + idEntry + secretEntry) by {
      ConcatAppend(front, [last, idEntry, secretEntry]);
      ConcatThree(last, idEntry, secretEntry);
    }
    assert Concat(front + [last + idEntry, secretEntry]) == Concat(front) + (last + idEntry + secretEntry) by {
      ConcatAppend(front, [last + idEntry, secretEntry]);
      ConcatPairText(last + idEntry, secretEntry);
    }
  }

  /** Terminated lines, an unterminated line and two entries read back with the unterminated line fused to the first entry. */
  lemma FusedReadBack(front: seq<string>, last: string, idEntry: string, secretEntry: string)
    requires AllTerminated(front)
    requires IsLine(last) && !Terminated(last)
    requires IsLine(idEntry) && Terminated(idEntry) && IsLine(secretEntry) && Terminated(secretEntry)
    ensures ReadLines(Concat(front + [last] + [idEntry, secretEntry])) == front + [last + idEntry, secretEntry]
  {
    var fused := last + idEntry;
    assert IsLine(fused) by {
      forall j | 0 <= j < |fused| - 1 ensures fused[j] != '\n' {
        if j < |last| {
          assert fused[j] == last[j];
        } else {
          assert fused[j] == idEntry[j - |last|];
        }
      }
    }
    var reread := front + [fused, secretEntry];
    assert IsLineSequence(reread) by {
      forall i | 0 <= i < |reread| ensures IsLine(reread[i]) && (i < |reread| - 1 ==> Terminated(reread[i])) {
        if i < |front| {
          assert reread[i] == front[i];
        } else if i == |front| {
          assert fused[|fused| - 1] == idEntry[|idEntry| - 1];
        }
      }
    }
    ReadLinesOfConcat(reread);
    FusedText(front, last, idEntry, secretEntry);
  }

  /**
    The store text has a last line without a terminator that the filter keeps:
    the id entry is written directly after it, so reading the store back
    fuses the two into one line and yields one line fewer than were written.
   */
  lemma UnterminatedLastLineFuses(text: string, projectName: string, clientId: string, clientSecret: string)
    requires !EndsCleanly(text)
    requires !IsStale(ReadLines(text)[|ReadLines(text)| - 1], projectName)
    requires NoNewline(projectName) && NoNewline(clientId) && NoNewline(clientSecret)
    ensures var kept := RemoveStale(ReadLines(text), projectName);
      var reread := ReadStore(WriteStore(Present(text), projectName, clientId, clientSecret));
      kept != []
      && reread == kept[..|kept| - 1]
                   + [kept[|kept| - 1] + Entry(IdKey(projectName), clientId), Entry(SecretKey(projectName), clientSecret)]
      && |reread| == |Upsert(ReadLines(text), projectName, clientId, clientSecret)| - 1
  {
    var lines := ReadLines(text);
    var n := |lines|;
    var last := lines[n - 1];
    var idEntry := Entry(IdKey(projectName), clientId);
    var secretEntry := Entry(SecretKey(projectName), clientSecret);
    LastLineUnterminated(text);
    KeptEndsWithLast(lines, projectName);
    var front := RemoveStale(lines[..n - 1], projectName);
    var kept := RemoveStale(lines, projectName);
    assert kept[..|kept| - 1] == front && kept[|kept| - 1] == last;
    var init := lines[..n - 1];
    assert AllTerminated(init) by {
      forall i | 0 <= i < |init| ensures IsLine(init[i]) && Terminated(init[i]) {
        assert init[i] == lines[i];
      }
    }
    UpsertAllTerminated(lines[..n - 1], projectName, clientId, clientSecret);
    assert AllTerminated(front) by {
      var u := Upsert(lines[..n - 1], projectName, clientId, clientSecret);
      forall i | 0 <= i < |front| ensures IsLine(front[i]) && Terminated(front[i]) {
        assert front[i] == u[i];
      }
    }
    KeysHaveNoNewline(projectName);
    EntryIsLine(IdKey(projectName), clientId);
    EntryIsLine(SecretKey(projectName), clientSecret);
    FusedReadBack(front, last, idEntry, secretEntry);
    assert Upsert(lines, projectName, clientId, clientSecret) == front + [last] + [idEntry, secretEntry];
  }

  /** An entry of arguments free of '\n', left without its terminator, is one unterminated line. */
  lemma UnterminatedEntryRead(key: string, value: string)
    requires NoNewline(key) && NoNewline(value)
    ensures var text := key + "=" + value;
      ReadLines(text) == [text] && !EndsCleanly(text)
  {
    var text := key + "=" + value;
    NoNewlineJoin(key, "=");
    NoNewlineJoin(key + "=", value);
    assert text[|text| - 1] != '\n';
    assert IsLineSequence([text]);
    ConcatSingle(text);
    ReadLinesOfConcat([text]);
  }

  /**
    The fusion crosses projects, even for names without `=`: when the store's
    last line is project a's secret entry without its terminator, a run for a
    project b that starts with another character writes its id entry directly
    after it. Reading the store back, a's secret holds `value` followed by b's
    id entry, and no line of its own starts with b's id key.
   */
  lemma FusionAltersOtherProject(a: string, value: string, b: string, clientId: string, clientSecret: string)
    requires NoNewline(a) && NoNewline(value) && NoNewline(b) && NoNewline(clientId) && NoNewline(clientSecret)
    requires a != [] && b != [] && a[0] != b[0]
    ensures var text := SecretKey(a) + "=" + value;
      var reread := ReadStore(WriteStore(Present(text), b, clientId, clientSecret));
      reread == [text + Entry(IdKey(b), clientId), Entry(SecretKey(b), clientSecret)]
      && StartsWith(reread[0], SecretKey(a) + "=")
      && CountStartingWith(reread, IdKey(b) + "=") == 0
  {
    var text := SecretKey(a) + "=" + value;
    KeysHaveNoNewline(a);
    UnterminatedEntryRead(SecretKey(a), value);
    assert text[0] == a[0];
    assert !IsStale(text, b);
    UnterminatedLastLineFuses(text, b, clientId, clientSecret);
    var kept := RemoveStale(ReadLines(text), b);
    assert kept == [text];
    assert kept[..|kept| - 1] == [];
    var reread := ReadStore(WriteStore(Present(text), b, clientId, clientSecret));
    assert reread == [text + Entry(IdKey(b), clientId), Entry(SecretKey(b), clientSecret)];
    StartsWithExtended(text, Entry(IdKey(b), clientId), SecretKey(a) + "=");
    var fused := text + Entry(IdKey(b), clientId);
    var secretEntry := Entry(SecretKey(b), clientSecret);
    assert !StartsWith(fused, IdKey(b) + "=") by {
      assert fused[0] == a[0];
    }
    assert !StartsWith(secretEntry, IdKey(b) + "=") by {
      KeyPrefixesDisjoint(secretEntry, b);
    }
    CountOfTwo(fused, secretEntry, IdKey(b) + "=");
  }

  lemma CountOfTwo(first: string, second: string, prefix: string)
    requires !StartsWith(first, prefix) && !StartsWith(second, prefix)
    ensures CountStartingWith([first, second], prefix) == 0
  {
    var lines := [first, second];
    var last: seq<string> := [second];
    assert lines[1..] == last && last[1..] == [];
    assert CountStartingWith(last, prefix) == 0;
  }

  /**
    The instance: the store `A_YouTube_Client_Secret=s` and a run for B with
    (`c`, `d`) read back as `A_YouTube_Client_Secret=sB_YouTube_Client_ID=c`
    and B's secret entry, with no id line for B.
   */
  lemma FusionExample()
    ensures var reread := ReadStore(WriteStore(Present(SecretKey("A") + "=" + "s"), "B", "c", "d"));
      reread == [SecretKey("A") + "=" + "s" + Entry(IdKey("B"), "c"), Entry(SecretKey("B"), "d")]
      && CountStartingWith(reread, IdKey("B") + "=") == 0
  {
    assert NoNewline("A") && NoNewline("s") && NoNewline("B") && NoNewline("c") && NoNewline("d");
    FusionAltersOtherProject("A", "s", "B", "c", "d");
  }






  /** A value holding '\n' gives the entry of the part before it, followed by the rest as a line. */
  lemma EntrySplit(key: string, head: string, rest: string)
    ensures Entry(key, head + "\n" + rest) == Entry(key, head) + (rest + "\n")
  {
  }

  /** With no store, the text written is the id entry followed by the secret entry. */
  lemma WrittenToAbsentStore(projectName: string, clientId: string, clientSecret: string)
    ensures WriteStore(Absent, projectName, clientId, clientSecret).text
      == Entry(IdKey(projectName), clientId) + Entry(SecretKey(projectName), clientSecret)
  {
    var none: seq<string> := [];
    var idEntry := Entry(IdKey(projectName), clientId);
    var secretEntry := Entry(SecretKey(projectName), clientSecret);
    assert Upsert(none, projectName, clientId, clientSecret) == [idEntry, secretEntry];
    ConcatPairText(idEntry, secretEntry);
  }

  /** With no store, a secret holding '\n' is written as the id entry, the secret entry up to the '\n', and the rest as a line of its own. */
  lemma SplitSecretText(projectName: string, clientId: string, secretHead: string, injected: string)
    ensures WriteStore(Absent, projectName, clientId, secretHead + "\n" + injected).text
      == Concat([Entry(IdKey(projectName), clientId), Entry(SecretKey(projectName), secretHead), injected + "\n"])
  {
    var idEntry := Entry(IdKey(projectName), clientId);
    var secretEntry := Entry(SecretKey(projectName), secretHead);
    var extra := injected + "\n";
    var text := WriteStore(Absent, projectName, clientId, secretHead + "\n" + injected).text;
    assert text == idEntry + (secretEntry + extra) by {
      WrittenToAbsentStore(projectName, clientId, secretHead + "\n" + injected);
      EntrySplit(SecretKey(projectName), secretHead, injected);
    }
    assert Concat([idEntry, secretEntry, extra]) == idEntry + secretEntry + extra by {
      ConcatThree(idEntry, secretEntry, extra);
    }
    assert idEntry + (secretEntry + extra) == idEntry + secretEntry + extra;
  }

  /** The lines of that split text are read back as three lines. */
  lemma SplitSecretReadBack(projectName: string, clientId: string, secretHead: string, injected: string)
    requires NoNewline(projectName) && NoNewline(clientId) && NoNewline(secretHead) && NoNewline(injected)
    ensures ReadStore(WriteStore(Absent, projectName, clientId, secretHead + "\n" + injected))
      == [Entry(IdKey(projectName), clientId), Entry(SecretKey(projectName), secretHead), injected + "\n"]
  {
    var idEntry := Entry(IdKey(projectName), clientId);
    var secretEntry := Entry(SecretKey(projectName), secretHead);
    var after := WriteStore(Absent, projectName, clientId, secretHead + "\n" + injected);
    SplitSecretText(projectName, clientId, secretHead, injected);
    KeysHaveNoNewline(projectName);
    EntryIsLine(IdKey(projectName), clientId);
    EntryIsLine(SecretKey(projectName), secretHead);
    TerminatedLine(injected);
    ThreeLinesRead(idEntry, secretEntry, injected + "\n");
    ConcatThree(idEntry, secretEntry, injected + "\n");
    assert ReadStore(after) == ReadLines(after.text);
  }

  /**
    A '\n' inside an argument splits its entry: the store then reads back with
    an extra line, which a later run for the same project keeps whenever that
    line is not one of the project's entries.
   */
  lemma NewlineInSecretAddsLine(projectName: string, clientId: string, secretHead: string, injected: string, c: string, d: string)
    requires NoNewline(projectName) && NoNewline(clientId) && NoNewline(secretHead) && NoNewline(injected)
    ensures var reread := ReadStore(WriteStore(Absent, projectName, clientId, secretHead + "\n" + injected));
      reread == [Entry(IdKey(projectName), clientId), Entry(SecretKey(projectName), secretHead), injected + "\n"]
      && (!IsStale(injected + "\n", projectName) ==> injected + "\n" in Upsert(reread, projectName, c, d))
  {
    SplitSecretReadBack(projectName, clientId, secretHead, injected);
    var lines := [Entry(IdKey(projectName), clientId), Entry(SecretKey(projectName), secretHead), injected + "\n"];
    if !IsStale(injected + "\n", projectName) {
      assert injected + "\n" == lines[2];
      UpsertKeepsUnrelated(lines, projectName, c, d, injected + "\n");
    }
  }

  lemma StartsWithExtended(line: string, more: string, prefix: string)
    requires StartsWith(line, prefix)
    ensures StartsWith(line + more, prefix)
  {
    assert (line + more)[..|prefix|] == line[..|prefix|];
  }

  lemma CountOfThree(first: string, second: string, third: string, prefix: string)
    requires StartsWith(first, prefix) && !StartsWith(second, prefix) && StartsWith(third, prefix)
    ensures CountStartingWith([first, second, third], prefix) == 2
  {
    var lines := [first, second, third];
    assert lines[1..] == [second, third];
    assert lines[1..][1..] == [third];
    var last: seq<string> := [third];
    assert last[1..] == [];
    assert CountStartingWith(last, prefix) == 1;
    assert CountStartingWith(lines[1..], prefix) == 1;
  }

  /**
    A secret holding '\n' followed by a line that starts with `<id_key>=` leaves
    two lines starting with the project's id key, although every run intends one.
   */
  lemma NewlineInSecretDuplicatesIdKey(projectName: string, clientId: string, secretHead: string, injected: string)
    requires NoNewline(projectName) && NoNewline(clientId) && NoNewline(secretHead) && NoNewline(injected)
    requires StartsWith(injected, IdKey(projectName) + "=")
    ensures var reread := ReadStore(WriteStore(Absent, projectName, clientId, secretHead + "\n" + injected));
      |reread| == 3 && CountStartingWith(reread, IdKey(projectName) + "=") == 2
  {
    var prefix := IdKey(projectName) + "=";
    var idEntry := Entry(IdKey(projectName), clientId);
    var secretEntry := Entry(SecretKey(projectName), secretHead);
    var extra := injected + "\n";
    var reread := ReadStore(WriteStore(Absent, projectName, clientId, secretHead + "\n" + injected));
    SplitSecretReadBack(projectName, clientId, secretHead, injected);
    assert reread == [idEntry, secretEntry, extra];
    StartsWithExtended(injected, "\n", prefix);
    assert StartsWith(idEntry, prefix) && !StartsWith(secretEntry, prefix) by {
      EntriesAreStale(projectName, clientId, secretHead);
    }
    CountOfThree(idEntry, secretEntry, extra, prefix);
  }

  /** The instance `P`, `a`, and the secret `x\nP_YouTube_Client_ID=y`. */
  lemma NewlineInSecretExample()
    ensures var reread := ReadStore(WriteStore(Absent, "P", "a", "x" + "\n" + "P_YouTube_Client_ID=y"));
      |reread| == 3 && CountStartingWith(reread, IdKey("P") + "=") == 2
  {
    var injected: string := "P_YouTube_Client_ID=y";
    var prefix := IdKey("P") + "=";
    assert prefix == "P_YouTube_Client_ID=";
    assert injected == prefix + "y";
    StartsWithExtended(prefix, "y", prefix);
    assert NoNewline(injected) by {
      KeysHaveNoNewline("P");
    }
    NewlineInSecretDuplicatesIdKey("P", "a", "x", injected);
  }
}
