/**
  The Credential Extractor (extract_credentials.py): finds the OAuth client
  id and client secret in a secrets document exported by the Google Cloud
  console and prints them as `clientId=` / `clientSecret=` lines.
 */
module CredentialExtractor {
  import StoreText

  /** A parsed JSON value. Numbers are integers; object keys are strings. */
  datatype JValue =
    | JNull
    | JBool(b: bool)
    | JNumber(n: int)
    | JString(s: string)
    | JArray(items: seq<JValue>)
    | JObject(fields: map<string, JValue>)

  /**
    The outcome of opening and parsing the file: a missing file, a document
    that is not JSON, any other failure of `open` or `json.load` (a directory,
    no permission, undecodable bytes), or the parsed document.
   */
  datatype Loaded = FileNotFound | InvalidJson | OtherLoadError | Parsed(data: JValue)

  /** Which of extract_credentials' error branches was taken; each returns None. */
  datatype Failure =
    | NotFound      // FileNotFoundError
    | BadJson       // json.JSONDecodeError
    | NoSection     // neither 'installed' nor 'web'
    | MissingField  // client_id or client_secret missing or falsy
    | Unexpected    // any other exception (TypeError, KeyError, AttributeError)

  datatype Result<T> = Ok(value: T) | Err(failure: Failure)

  datatype Option<T> = None | Some(value: T)

  /** The dictionary extract_credentials returns, holding the two values as found. */
  datatype Credentials = Credentials(clientId: JValue, clientSecret: JValue)

  const InstalledKey: string := "installed"
  const WebKey: string := "web"
  const ClientIdKey: string := "client_id"
  const ClientSecretKey: string := "client_secret"

  /** The argument count `main` accepts: the program name and the path. */
  const ExtractorArgCount: nat := 2

  /** Python truthiness: exactly None, false, 0, "", [] and {} are false. */
  function Truthy(v: JValue): (t: bool)
    ensures !t <==> v in {JNull, JBool(false), JNumber(0), JString(""), JArray([]), JObject(map[])}
  {
    match v
    case JNull => false
    case JBool(b) => b
    case JNumber(n) => n != 0
    case JString(s) => s != ""
    case JArray(items) =>
      assert items != [] ==> v != JArray([]);
      items != []
    case JObject(fields) =>
      assert fields != map[] ==> v != JObject(map[]);
      fields != map[]
  }

  /** Python's `needle in haystack` on two str values. */
  function IsSubstring(needle: string, haystack: string): (found: bool)
    ensures needle <= haystack ==> found
    ensures found ==> |needle| <= |haystack|
  {
    assert haystack[0..] == haystack;
    exists i :: 0 <= i <= |haystack| && needle <= haystack[i..]
  }

  /** Python's `key in container`: a key test on a dict, element equality on a list, substring on a str; a TypeError otherwise. */
  function Contains(container: JValue, key: string): (r: Result<bool>)
    ensures r.Ok? <==> container.JObject? || container.JArray? || container.JString?
    ensures r.Err? ==> r.failure == Unexpected
    ensures container.JObject? ==> r == Ok(key in container.fields)
  {
    match container
    case JObject(fields) => Ok(key in fields)
    case JArray(items) => Ok(JString(key) in items)
    case JString(s) => Ok(IsSubstring(key, s))
    case _ => Err(Unexpected)
  }

  /** Python's `container[key]` with a string key: defined on a dict that has the key only. */
  function Index(container: JValue, key: string): (r: Result<JValue>)
    ensures r.Ok? <==> container.JObject? && key in container.fields
    ensures r.Ok? ==> r.value == container.fields[key]
    ensures r.Err? ==> r.failure == Unexpected
  {
    match container
    case JObject(fields) => if key in fields then Ok(fields[key]) else Err(Unexpected)
    case _ => Err(Unexpected)
  }

  /** Python's `container.get(key)`: None for a missing key; only a dict has the method. */
  function Get(container: JValue, key: string): (r: Result<JValue>)
    ensures r.Ok? <==> container.JObject?
    ensures r.Err? ==> r.failure == Unexpected
    ensures Index(container, key).Ok? ==> r == Index(container, key)
    ensures container.JObject? && key !in container.fields ==> r == Ok(JNull)
  {
    match container
    case JObject(fields) => Ok(if key in fields then fields[key] else JNull)
    case _ => Err(Unexpected)
  }

  /** The 'installed' section if the document has one, else the 'web' section. */
  function SelectSection(data: JValue): (r: Result<JValue>)
    ensures r.Ok? ==>
      data.JObject? && ChosenSectionName(data.fields) in data.fields && r.value == data.fields[ChosenSectionName(data.fields)]
    ensures data.JObject? && ChosenSectionName(data.fields) in data.fields ==> r.Ok?
    ensures r.Err? ==> r.failure == NoSection || r.failure == Unexpected
    ensures data.JObject? && r.Err? ==> r.failure == NoSection
  {
    match Contains(data, InstalledKey)
    case Err(e) => Err(e)
    case Ok(hasInstalled) =>
      if hasInstalled then Index(data, InstalledKey)
      else
        match Contains(data, WebKey)
        case Err(e) => Err(e)
        case Ok(hasWeb) => if hasWeb then Index(data, WebKey) else Err(NoSection)
  }

  /** `client_id` and `client_secret` of the section, both required to be truthy. */
  function ReadFields(section: JValue): (r: Result<Credentials>)
    ensures r.Ok? <==> section.JObject? && HasTruthyField(section.fields, ClientIdKey) && HasTruthyField(section.fields, ClientSecretKey)
    ensures r.Ok? ==> r.value == Credentials(section.fields[ClientIdKey], section.fields[ClientSecretKey])
    ensures r.Err? ==> (r.failure == Unexpected <==> !section.JObject?)
    ensures r.Err? ==> r.failure == Unexpected || r.failure == MissingField
  {
    match Get(section, ClientIdKey)
    case Err(e) => Err(e)
    case Ok(clientId) =>
      match Get(section, ClientSecretKey)
      case Err(e) => Err(e)
      case Ok(clientSecret) =>
        if !Truthy(clientId) || !Truthy(clientSecret) then Err(MissingField)
        else Ok(Credentials(clientId, clientSecret))
  }

  /** The body of extract_credentials, with the branch that ended it. */
  function Lookup(loaded: Loaded): (r: Result<Credentials>)
    ensures r.Ok? ==> loaded.Parsed? && loaded.data.JObject?
    ensures r.Err? && (r.failure == NotFound || r.failure == BadJson) ==> !loaded.Parsed?
    ensures !loaded.Parsed? ==> r.Err? && (r.failure == NotFound <==> loaded == FileNotFound) && (r.failure == BadJson <==> loaded == InvalidJson)
  {
    match loaded
    case FileNotFound => Err(NotFound)
    case InvalidJson => Err(BadJson)
    case OtherLoadError => Err(Unexpected)
    case Parsed(data) =>
      match SelectSection(data)
      case Err(e) => Err(e)
      case Ok(section) => ReadFields(section)
  }

  // ---------------------------------------------------------------------------
  // Reference description of a successful lookup, stated on the document itself

  /** The name of the section that is used: 'installed' whenever present. */
  function ChosenSectionName(top: map<string, JValue>): string {
    if InstalledKey in top then InstalledKey else WebKey
  }

  predicate HasTruthyField(section: map<string, JValue>, name: string) {
    name in section && Truthy(section[name])
  }

  /** The document is an object whose chosen section is an object with truthy client_id and client_secret. */
  predicate Extractable(loaded: Loaded) {
    loaded.Parsed? && loaded.data.JObject?
    && var top := loaded.data.fields;
       var name := ChosenSectionName(top);
       name in top && top[name].JObject?
       && HasTruthyField(top[name].fields, ClientIdKey)
       && HasTruthyField(top[name].fields, ClientSecretKey)
  }

  /** The chosen section's fields of an extractable document. */
  function ChosenFields(loaded: Loaded): map<string, JValue>
    requires Extractable(loaded)
  {
    loaded.data.fields[ChosenSectionName(loaded.data.fields)].fields
  }

  /**
    extract_credentials: a result exactly when the document is extractable, and
    then the chosen section's client_id and client_secret, unchanged.
   */
  function ExtractCredentials(loaded: Loaded): (r: Option<Credentials>)
    ensures r.Some? <==> Extractable(loaded)
    ensures r.Some? ==> r.value == Credentials(ChosenFields(loaded)[ClientIdKey], ChosenFields(loaded)[ClientSecretKey])
  {
    match Lookup(loaded)
    case Ok(c) => Some(c)
    case Err(_) => None
  }

  // ---------------------------------------------------------------------------
  // Output of main

  /** One printed line, `<name>=` followed by Python's str() of the value. */
  datatype OutputLine = OutputLine(name: string, value: JValue)

  /** What main does: its exit status and the credential lines it prints. */
  datatype ExtractorRun = ExtractorRun(exitCode: int, credentialLines: seq<OutputLine>)

  /** The decimal digit character for d. */
  function Digit(d: nat): (c: char)
    requires d < 10
    ensures '0' <= c <= '9' && c as int - '0' as int == d
  {
    ('0' as int + d) as char
  }

  /** A decimal numeral: digits only, and no leading zero unless it is "0" itself. */
  predicate IsNumeral(s: string) {
    s != [] && (forall i :: 0 <= i < |s| ==> '0' <= s[i] <= '9') && (s[0] == '0' ==> |s| == 1)
  }

  /** The number a string of decimal digits denotes. */
  function DigitsValue(s: string): int {
    if s == [] then 0 else DigitsValue(s[..|s| - 1]) * 10 + (s[|s| - 1] as int - '0' as int)
  }

  /** The decimal numeral of n, as `str()` writes a non-negative int. */
  function NatString(n: nat): (digits: string)
    ensures IsNumeral(digits) && DigitsValue(digits) == n
    decreases n
  {
    if n < 10 then
      assert [Digit(n)][..0] == [];
      [Digit(n)]
    else
      var high := NatString(n / 10);
      var digits := high + [Digit(n % 10)];
      assert digits[..|digits| - 1] == high;
      assert |high| == 1 ==> high[..|high| - 1] == [];
      assert high[0] != '0';
      digits
  }

  /** Python's str() of a scalar value; lists and dicts are not rendered. */
  function Display(v: JValue): (text: Option<string>)
    ensures text.Some? <==> !v.JArray? && !v.JObject?
    ensures v.JNull? ==> text == Some("None")
    ensures v.JBool? ==> text == Some(if v.b then "True" else "False")
    ensures v.JString? ==> text == Some(v.s)
    ensures v.JNumber? && v.n >= 0 ==> text.Some? && IsNumeral(text.value) && DigitsValue(text.value) == v.n
    ensures v.JNumber? && v.n < 0 ==>
      text.Some? && text.value != [] && text.value[0] == '-'
      && IsNumeral(text.value[1..]) && DigitsValue(text.value[1..]) == -v.n
  {
    match v
    case JNull => Some("None")
    case JBool(b) => Some(if b then "True" else "False")
    case JNumber(n) =>
      if n < 0 then
        var digits := NatString(-n);
        assert ("-" + digits)[1..] == digits;
        Some("-" + digits)
      else Some(NatString(n))
    case JString(s) => Some(s)
    case _ => None
  }

  /** The text of the printed lines, each ended by '\n' as `print` does. */
  function Printed(lines: seq<OutputLine>): (text: Option<string>)
    ensures text.Some? <==> forall i :: 0 <= i < |lines| ==> Display(lines[i].value).Some?
    ensures text.Some? && lines != [] ==> lines[0].name + "=" <= text.value
  {
    if lines == [] then Some("")
    else
      match Display(lines[0].value)
      case None => None
      case Some(text) =>
        match Printed(lines[1..])
        case None => None
        case Some(rest) => Some(lines[0].name + "=" + text + "\n" + rest)
  }

  /**
    main: with an argument count other than two it prints its usage text,
    exits with status 1 and does not load anything; otherwise it loads the
    file named by the argument, makes the two credential `print` calls and
    exits 0 on success, and exits 1, printing no
    credential line, on failure.
   */
  function RunExtractor(argv: seq<string>, load: string -> Loaded): (run: ExtractorRun)
    ensures run.exitCode == 0 || run.exitCode == 1
    ensures |argv| != ExtractorArgCount ==> run == ExtractorRun(1, [])
    ensures |argv| == ExtractorArgCount ==> (run.exitCode == 0 <==> Extractable(load(argv[1])))
    ensures run.exitCode == 1 ==> run.credentialLines == []
    ensures run.exitCode == 0 ==>
      |argv| == ExtractorArgCount
      && var fields := ChosenFields(load(argv[1]));
         run.credentialLines == [OutputLine("clientId", fields[ClientIdKey]), OutputLine("clientSecret", fields[ClientSecretKey])]
  {
    if |argv| != ExtractorArgCount then ExtractorRun(1, [])
    else
      match ExtractCredentials(load(argv[1]))
      case Some(c) => ExtractorRun(0, [OutputLine("clientId", c.clientId), OutputLine("clientSecret", c.clientSecret)])
      case None => ExtractorRun(1, [])
  }

  // ---------------------------------------------------------------------------
  // Properties

  /** When 'installed' is present, what 'web' holds does not matter. */
  lemma InstalledShadowsWeb(top: map<string, JValue>, web: JValue)
    requires InstalledKey in top
    ensures ExtractCredentials(Parsed(JObject(top))) == ExtractCredentials(Parsed(JObject(top[WebKey := web])))
  {
    assert top[WebKey := web][InstalledKey] == top[InstalledKey];
  }

  /** Without 'installed', a 'web' section is read exactly as the same section under 'installed' would be. */
  lemma WebReadLikeInstalled(top: map<string, JValue>)
    requires InstalledKey !in top && WebKey in top
    ensures ExtractCredentials(Parsed(JObject(top))) == ExtractCredentials(Parsed(JObject(map[InstalledKey := top[WebKey]])))
  {
  }

  /** A document object with neither section fails with the NoSection branch. */
  lemma NoSectionFails(top: map<string, JValue>)
    requires InstalledKey !in top && WebKey !in top
    ensures Lookup(Parsed(JObject(top))) == Err(NoSection)
    ensures ExtractCredentials(Parsed(JObject(top))) == None
  {
  }

  /** A top-level value that is not an object never yields credentials, whatever it holds. */
  lemma NonObjectDocumentFails(data: JValue)
    requires !data.JObject?
    ensures ExtractCredentials(Parsed(data)) == None
    ensures Lookup(Parsed(data)).failure == NoSection || Lookup(Parsed(data)).failure == Unexpected
  {
  }

  /** A chosen section that is not an object makes `.get` raise: no credentials. */
  lemma NonObjectSectionFails(top: map<string, JValue>)
    requires ChosenSectionName(top) in top && !top[ChosenSectionName(top)].JObject?
    ensures Lookup(Parsed(JObject(top))) == Err(Unexpected)
    ensures ExtractCredentials(Parsed(JObject(top))) == None
  {
  }

  /** A missing or falsy client_id or client_secret in the chosen section means no credentials. */
  lemma FalsyFieldFails(top: map<string, JValue>)
    requires ChosenSectionName(top) in top && top[ChosenSectionName(top)].JObject?
    requires var section := top[ChosenSectionName(top)].fields;
      !HasTruthyField(section, ClientIdKey) || !HasTruthyField(section, ClientSecretKey)
    ensures Lookup(Parsed(JObject(top))) == Err(MissingField)
    ensures ExtractCredentials(Parsed(JObject(top))) == None
  {
  }

  /** The text of two lists of lines printed one after the other is the two texts joined. */
  lemma {:induction false} PrintedAppend(a: seq<OutputLine>, b: seq<OutputLine>)
    ensures Printed(a + b) ==
      if Printed(a).Some? && Printed(b).Some? then Some(Printed(a).value + Printed(b).value) else None
  {
    if a == [] {
      assert a + b == b;
      if Printed(b).Some? {
        assert "" + Printed(b).value == Printed(b).value;
      }
    } else {
      assert (a + b)[0] == a[0];
      assert (a + b)[1..] == a[1..] + b;
      PrintedAppend(a[1..], b);
      if Display(a[0].value).Some? && Printed(a[1..]).Some? && Printed(b).Some? {
        var head := a[0].name + "=" + Display(a[0].value).value + "\n";
        assert head + (Printed(a[1..]).value + Printed(b).value) == head + Printed(a[1..]).value + Printed(b).value;
      }
    }
  }

  /** One printed line is `<name>=`, the value's str() and a line terminator. */
  lemma PrintedSingle(line: OutputLine)
    ensures Printed([line]) ==
      if Display(line.value).Some? then Some(line.name + "=" + Display(line.value).value + "\n") else None
  {
    assert [line][0] == line;
    assert [line][1..] == [];
    if Display(line.value).Some? {
      assert line.name + "=" + Display(line.value).value + "\n" + "" == line.name + "=" + Display(line.value).value + "\n";
    }
  }

  /** Values that str() renders print as `clientId=<str(id)>` and `clientSecret=<str(secret)>`, in that order. */
  lemma CredentialsPrinted(argv: seq<string>, load: string -> Loaded)
    requires |argv| == ExtractorArgCount && Extractable(load(argv[1]))
    requires Display(ChosenFields(load(argv[1]))[ClientIdKey]).Some?
    requires Display(ChosenFields(load(argv[1]))[ClientSecretKey]).Some?
    ensures var fields := ChosenFields(load(argv[1]));
      Printed(RunExtractor(argv, load).credentialLines)
      == Some("clientId=" + Display(fields[ClientIdKey]).value + "\n" + "clientSecret=" + Display(fields[ClientSecretKey]).value + "\n")
  {
    var fields := ChosenFields(load(argv[1]));
    var idLine := OutputLine("clientId", fields[ClientIdKey]);
    var secretLine := OutputLine("clientSecret", fields[ClientSecretKey]);
    assert RunExtractor(argv, load).credentialLines == [idLine] + [secretLine];
    PrintedAppend([idLine], [secretLine]);
    PrintedSingle(idLine);
    PrintedSingle(secretLine);
    var idText := Display(fields[ClientIdKey]).value;
    var secretText := Display(fields[ClientSecretKey]).value;
    assert "clientId" + "=" + idText + "\n" + ("clientSecret" + "=" + secretText + "\n")
      == "clientId=" + idText + "\n" + "clientSecret=" + secretText + "\n";
  }

  /** Regrouping the pieces of the printed text into its lines. */
  lemma Regroup(a: string, h: string, r: string, c: string, t: string, nl: string)
    ensures a + (h + nl + r) + nl + c + t + nl == (a + h + nl) + (r + nl) + (c + t + nl)
  {
  }

  /** The printed text of that case, read line by line. */
  lemma NewlineValueText(head: string, rest: string, secret: string)
    requires '\n' !in head && '\n' !in rest && '\n' !in secret
    ensures StoreText.ReadLines("clientId=" + (head + "\n" + rest) + "\n" + "clientSecret=" + secret + "\n")
      == ["clientId=" + head + "\n", rest + "\n", "clientSecret=" + secret + "\n"]
  {
    var first := "clientId=" + head + "\n";
    var second := rest + "\n";
    var third := "clientSecret=" + secret + "\n";
    StoreText.JoinedLine("clientId=", head);
    StoreText.TerminatedLine(rest);
    StoreText.JoinedLine("clientSecret=", secret);
    StoreText.ThreeLinesRead(first, second, third);
    Regroup("clientId=", head, rest, "clientSecret=", secret, "\n");
  }

  /**
    A string value holding '\n' is printed as is: the output then has more
    lines than the two `print` calls, here `clientId=<head>`, `<rest>` and
    `clientSecret=<secret>`.
   */
  lemma NewlineInValueAddsOutputLine(argv: seq<string>, load: string -> Loaded, head: string, rest: string, secret: string)
    requires |argv| == ExtractorArgCount && Extractable(load(argv[1]))
    requires ChosenFields(load(argv[1]))[ClientIdKey] == JString(head + "\n" + rest)
    requires ChosenFields(load(argv[1]))[ClientSecretKey] == JString(secret)
    requires '\n' !in head && '\n' !in rest && '\n' !in secret
    ensures RunExtractor(argv, load).exitCode == 0
    ensures var text := Printed(RunExtractor(argv, load).credentialLines);
      text.Some? && StoreText.ReadLines(text.value) == ["clientId=" + head + "\n", rest + "\n", "clientSecret=" + secret + "\n"]
  {
    CredentialsPrinted(argv, load);
    NewlineValueText(head, rest, secret);
  }

  lemma ExampleText()
    ensures "clientId=" + "X" + "\n" + "clientSecret=" + "Y" + "\n" == "clientId=X\nclientSecret=Y\n"
  {
  }

  /** The secrets document of an installed application gives `clientId=X` and `clientSecret=Y`. */
  lemma InstalledDocumentPrinted(argv: seq<string>, load: string -> Loaded)
    requires |argv| == ExtractorArgCount
    requires load(argv[1]) == Parsed(JObject(map[InstalledKey := JObject(map[ClientIdKey := JString("X"), ClientSecretKey := JString("Y")])]))
    ensures RunExtractor(argv, load).exitCode == 0
    ensures Printed(RunExtractor(argv, load).credentialLines) == Some("clientId=X\nclientSecret=Y\n")
  {
    var section := map[ClientIdKey := JString("X"), ClientSecretKey := JString("Y")];
    var top := map[InstalledKey := JObject(section)];
    assert ChosenSectionName(top) == InstalledKey;
    assert HasTruthyField(section, ClientIdKey) && HasTruthyField(section, ClientSecretKey);
    assert Extractable(load(argv[1]));
    CredentialsPrinted(argv, load);
    ExampleText();
  }

  /** The secrets document of a web application gives the same output. */
  lemma WebDocumentPrinted(argv: seq<string>, load: string -> Loaded)
    requires |argv| == ExtractorArgCount
    requires load(argv[1]) == Parsed(JObject(map[WebKey := JObject(map[ClientIdKey := JString("X"), ClientSecretKey := JString("Y")])]))
    ensures RunExtractor(argv, load).exitCode == 0
    ensures Printed(RunExtractor(argv, load).credentialLines) == Some("clientId=X\nclientSecret=Y\n")
  {
    assert InstalledKey !in load(argv[1]).data.fields;
    CredentialsPrinted(argv, load);
    ExampleText();
  }
}
