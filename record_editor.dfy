/** The pure logic of the Add/Edit record dialog (gui/controllers/record_editor_controller.py):
    `validate_record` with its IPv4 and IPv6 content patterns, and the record that
    `_on_save` assembles from the dialog's field values before validating it. */
module RecordEditor {
  import opened Wrappers
  import opened Text
  import opened Records

  /** `_PROXY_TYPES`: the types with a Proxied toggle. */
  const ProxyTypes: set<string> := {"A", "AAAA", "CNAME"}

  /** `_PRIORITY_TYPES`: the types with a Priority field. */
  const PriorityTypes: set<string> := {"MX", "SRV"}

  // ------------------------------------------------------------------
  // Splitting on a separator
  // ------------------------------------------------------------------

  /** The pieces of `s` between occurrences of a one-character separator (as Python's
      `s.split(sep)` would give them). The source never splits: this is how the model reads
      the dot-separated groups that `_IPV4_RE` matches. */
  function Split(s: string, sep: char): (parts: seq<string>)
    ensures |parts| >= 1
    ensures forall i :: 0 <= i < |parts| ==> sep !in parts[i]
    decreases |s|
  {
    if s == [] then [""]
    else if s[0] == sep then [""] + Split(s[1..], sep)
    else
      var rest := Split(s[1..], sep);
      [[s[0]] + rest[0]] + rest[1..]
  }

  /** Joining the pieces with the separator gives the string back. */
  lemma {:induction false} JoinSplit(s: string, sep: char)
    ensures Join(Split(s, sep), [sep]) == s
    decreases |s|
  {
    if s != [] {
      var rest := Split(s[1..], sep);
      JoinSplit(s[1..], sep);
      if s[0] == sep {
        assert s == [sep] + s[1..];
      } else if |rest| == 1 {
        assert s == [s[0]] + s[1..];
      } else {
        var parts := Split(s, sep);
        assert parts[1..] == rest[1..];
        assert Join(parts, [sep]) == [s[0]] + (rest[0] + [sep] + Join(rest[1..], [sep]));
        assert s == [s[0]] + s[1..];
      }
    }
  }

  lemma {:induction false} SplitWithoutSep(x: string, sep: char)
    requires sep !in x
    ensures Split(x, sep) == [x]
    decreases |x|
  {
    if x != [] {
      SplitWithoutSep(x[1..], sep);
      assert x == [x[0]] + x[1..];
    }
  }

  lemma {:induction false} SplitPiece(x: string, sep: char, y: string)
    requires sep !in x
    ensures Split(x + [sep] + y, sep) == [x] + Split(y, sep)
    decreases |x|
  {
    if x != [] {
      SplitPiece(x[1..], sep, y);
      assert (x + [sep] + y)[1..] == x[1..] + [sep] + y;
      assert x == [x[0]] + x[1..];
    } else {
      assert x + [sep] + y == [sep] + y;
    }
  }

  /** Pieces free of the separator are exactly what splitting their join gives back. */
  lemma {:induction false} SplitJoin(parts: seq<string>, sep: char)
    requires |parts| >= 1
    requires forall i :: 0 <= i < |parts| ==> sep !in parts[i]
    ensures Split(Join(parts, [sep]), sep) == parts
    decreases |parts|
  {
    if |parts| == 1 {
      SplitWithoutSep(parts[0], sep);
    } else {
      SplitJoin(parts[1..], sep);
      SplitPiece(parts[0], sep, Join(parts[1..], [sep]));
      assert parts == [parts[0]] + parts[1..];
    }
  }

  // ------------------------------------------------------------------
  // IPv4: `^(?:(?:25[0-5]|2[0-4]\d|[01]?\d\d?)\.){3}(?:25[0-5]|2[0-4]\d|[01]?\d\d?)$`
  // ------------------------------------------------------------------

  /** The octet group of `_IPV4_RE` read alternative by alternative:
      `25[0-5]`, `2[0-4]\d`, and the four spellings of `[01]?\d\d?`. */
  predicate OctetPattern(s: string) {
    (|s| == 3 && s[0] == '2' && s[1] == '5' && '0' <= s[2] <= '5')
    || (|s| == 3 && s[0] == '2' && '0' <= s[1] <= '4' && IsDigit(s[2]))
    || (|s| == 3 && (s[0] == '0' || s[0] == '1') && IsDigit(s[1]) && IsDigit(s[2]))
    || (|s| == 2 && (s[0] == '0' || s[0] == '1') && IsDigit(s[1]))
    || (|s| == 2 && IsDigit(s[0]) && IsDigit(s[1]))
    || (|s| == 1 && IsDigit(s[0]))
  }

  predicate AllDigits(s: string) {
    forall i :: 0 <= i < |s| ==> IsDigit(s[i])
  }

  /** An octet as the model checks it: one to three decimal digits, worth at most 255. */
  predicate IsOctet(s: string) {
    1 <= |s| <= 3 && AllDigits(s) && DigitsValue(s) <= 255
  }

  function DigitValue(c: char): (d: int) {
    c as int - '0' as int
  }

  lemma ThreeDigitValue(s: string)
    requires |s| == 3 && AllDigits(s)
    ensures DigitsValue(s) == 100 * DigitValue(s[0]) + 10 * DigitValue(s[1]) + DigitValue(s[2])
  {
    var p := s[..2];
    assert DigitsValue(s) == DigitsValue(p) * 10 + DigitValue(s[2]);
    TwoDigitValue(p);
  }

  lemma TwoDigitValue(s: string)
    requires |s| == 2 && AllDigits(s)
    ensures DigitsValue(s) == 10 * DigitValue(s[0]) + DigitValue(s[1])
  {
    var p := s[..1];
    assert DigitsValue(s) == DigitsValue(p) * 10 + DigitValue(s[1]);
    OneDigitValue(p);
  }

  lemma OneDigitValue(s: string)
    requires |s| == 1 && AllDigits(s)
    ensures DigitsValue(s) == DigitValue(s[0])
  {
    assert s[..0] == [];
  }

  /** The regular expression's octet alternatives accept exactly the numbers 0 to 255
      written with one to three digits (leading zeros allowed). */
  lemma OctetPatternIff(s: string)
    ensures OctetPattern(s) <==> IsOctet(s)
  {
    if |s| == 3 && AllDigits(s) {
      ThreeDigitValue(s);
    } else if |s| == 2 && AllDigits(s) {
      TwoDigitValue(s);
    } else if |s| == 1 && AllDigits(s) {
      OneDigitValue(s);
    }
  }

  /** The validator's IPv4 test: four dot-separated octets. */
  predicate IsIPv4(s: string) {
    var g := Split(s, '.');
    |g| == 4 && forall i :: 0 <= i < 4 ==> IsOctet(g[i])
  }

  /** The language of `_IPV4_RE` without its anchors: four octet groups joined by dots. */
  ghost predicate IPv4Pattern(s: string) {
    exists g: seq<string> :: |g| == 4 && (forall i :: 0 <= i < 4 ==> OctetPattern(g[i])) && s == Join(g, ".")
  }

  /** The validator's test decides the regular expression's language. */
  lemma IsIPv4Iff(s: string)
    ensures IsIPv4(s) <==> IPv4Pattern(s)
  {
    var g := Split(s, '.');
    if IsIPv4(s) {
      forall i | 0 <= i < 4 ensures OctetPattern(g[i]) {
        OctetPatternIff(g[i]);
      }
      JoinSplit(s, '.');
      assert |g| == 4 && (forall i :: 0 <= i < 4 ==> OctetPattern(g[i])) && s == Join(g, ".");
    }
    if IPv4Pattern(s) {
      var h :| |h| == 4 && (forall i :: 0 <= i < 4 ==> OctetPattern(h[i])) && s == Join(h, ".");
      forall i | 0 <= i < 4 ensures IsOctet(h[i]) && '.' !in h[i] {
        OctetPatternIff(h[i]);
      }
      SplitJoin(h, '.');
    }
  }

  // ------------------------------------------------------------------
  // IPv6: `^[0-9a-fA-F:]+$`
  // ------------------------------------------------------------------

  predicate IsHexOrColon(c: char) {
    ('0' <= c <= '9') || ('a' <= c <= 'f') || ('A' <= c <= 'F') || c == ':'
  }

  /** The language of `_IPV6_RE` without its anchors: one or more hex digits and colons. */
  predicate IsIPv6(s: string) {
    |s| > 0 && forall i :: 0 <= i < |s| ==> IsHexOrColon(s[i])
  }

  /** Every string the IPv4 test accepts has a dot, so the IPv6 test rejects it. */
  lemma IPv4IsNotIPv6(s: string)
    requires IsIPv4(s)
    ensures !IsIPv6(s)
  {
    var g := Split(s, '.');
    JoinSplit(s, '.');
    assert s == g[0] + "." + Join(g[1..], ".");
    assert s[|g[0]|] == '.';
  }

  // ------------------------------------------------------------------
  // The `$` anchor
  // ------------------------------------------------------------------

  /** What `re.match` accepts for a pattern anchored as `^...$`: Python's `$` also
      matches just before a final newline. */
  ghost predicate RegexAccepts(lang: string -> bool, s: string) {
    lang(s) || (|s| > 0 && s[|s| - 1] == '\n' && lang(s[..|s| - 1]))
  }

  /** The validator applies the patterns to stripped content, which never ends in a
      newline, so each pattern accepts it exactly when the model's test does. */
  lemma ContentTestsMatchRegex(content: string)
    ensures RegexAccepts(IPv4Pattern, Trim(content)) <==> IsIPv4(Trim(content))
    ensures RegexAccepts(IsIPv6, Trim(content)) <==> IsIPv6(Trim(content))
  {
    var s := Trim(content);
    assert s == [] || !IsSpace(s[|s| - 1]);
    IsIPv4Iff(s);
  }

  // ------------------------------------------------------------------
  // validate_record
  // ------------------------------------------------------------------

  datatype ValidationError =
    | TypeRequired
    | UnsupportedType(rtype: string)
    | NameRequired
    | ContentRequired
    | InvalidIPv4
    | InvalidIPv6
  {
    /** The text `validate_record` returns for this error. */
    function Message(): (msg: string) {
      match this
      case TypeRequired => "Record type is required."
      case UnsupportedType(t) => "Unsupported record type: " + t
      case NameRequired => "Name is required."
      case ContentRequired => "Content is required."
      case InvalidIPv4 => "A record content must be a valid IPv4 address."
      case InvalidIPv6 => "AAAA record content must be a valid IPv6 address."
    }
  }

  /** `validate_record`: the first check that fails, or `None` when the record is valid.
      The type is checked first, then the trimmed name, then the trimmed content, and
      for A and AAAA records the content's address form. */
  function ValidateRecord(r: Record): (err: Option<ValidationError>)
    ensures err == None <==>
      r.rtype in SupportedTypes && Trim(r.name) != "" && Trim(ContentOf(r)) != ""
      && (r.rtype == "A" ==> IsIPv4(Trim(ContentOf(r))))
      && (r.rtype == "AAAA" ==> IsIPv6(Trim(ContentOf(r))))
    ensures err == Some(TypeRequired) <==> r.rtype == ""
    ensures err == Some(UnsupportedType(r.rtype)) <==> r.rtype != "" && r.rtype !in SupportedTypes
    ensures err == Some(NameRequired) <==> r.rtype in SupportedTypes && Trim(r.name) == ""
    ensures err == Some(ContentRequired) <==>
      r.rtype in SupportedTypes && Trim(r.name) != "" && Trim(ContentOf(r)) == ""
    ensures err == Some(InvalidIPv4) <==>
      r.rtype == "A" && Trim(r.name) != "" && Trim(ContentOf(r)) != "" && !IsIPv4(Trim(ContentOf(r)))
    ensures err == Some(InvalidIPv6) <==>
      r.rtype == "AAAA" && Trim(r.name) != "" && Trim(ContentOf(r)) != "" && !IsIPv6(Trim(ContentOf(r)))
  {
    var name := Trim(r.name);
    var content := Trim(ContentOf(r));
    if r.rtype == "" then Some(TypeRequired)
    else if r.rtype !in SupportedTypes then Some(UnsupportedType(r.rtype))
    else if name == "" then Some(NameRequired)
    else if content == "" then Some(ContentRequired)
    else if r.rtype == "A" && !IsIPv4(content) then Some(InvalidIPv4)
    else if r.rtype == "AAAA" && !IsIPv6(content) then Some(InvalidIPv6)
    else None
  }

  /** Every error comes with a non-empty message, so the caller's `if err:` sees each one;
      the address errors name the address family and the type error says "Unsupported". */
  lemma MessagesInformative(e: ValidationError)
    ensures e.Message() != ""
    ensures e == InvalidIPv4 ==> Contains(e.Message(), "IPv4")
    ensures e == InvalidIPv6 ==> Contains(e.Message(), "IPv6")
    ensures e.UnsupportedType? ==> StartsWith(e.Message(), "Unsupported")
  {
    if e == InvalidIPv4 {
      assert OccursAt(e.Message(), "IPv4", 33);
    } else if e == InvalidIPv6 {
      assert OccursAt(e.Message(), "IPv6", 36);
    }
  }

  /** Only type, name and content are looked at: id, ttl, proxied, priority and data
      never make a record invalid. */
  lemma ValidateIgnoresOtherFields(r: Record, id: Option<string>, ttl: Option<int>, proxied: Option<bool>,
                                   priority: Option<int>, data: SrvData)
    ensures ValidateRecord(r.(id := id, ttl := ttl, proxied := proxied, priority := priority, data := data))
         == ValidateRecord(r)
  {
  }

  /** For CNAME, MX, TXT and SRV records with a name, any non-blank content is valid. */
  lemma OtherTypesAcceptAnyContent(r: Record)
    requires r.rtype in {"CNAME", "MX", "TXT", "SRV"} && Trim(r.name) != ""
    ensures ValidateRecord(r) == None <==> Trim(ContentOf(r)) != ""
  {
  }

  // ------------------------------------------------------------------
  // The record `_on_save` assembles
  // ------------------------------------------------------------------

  /** `_on_save`'s zone qualification: a bare name gets "." and the zone appended; an
      empty name, one ending with the zone string (no dot boundary is required) and
      one ending in "." are left alone. */
  function QualifyName(name: string, zone: string): (q: string)
    ensures name == "" || EndsWith(name, zone) || EndsWith(name, ".") ==> q == name
    ensures !(name == "" || EndsWith(name, zone) || EndsWith(name, ".")) ==> q == name + "." + zone
  {
    assert EndsWith(name, ".") ==> OccursAt(name, ".", |name| - 1);
    if name != "" && !EndsWith(name, zone) && (!Contains(name, ".") || !EndsWith(name, ".")) then
      name + "." + zone
    else
      name
  }

  /** A name with content ends up with the zone, or with a dot, at its end. */
  lemma QualifiedNameEnds(name: string, zone: string)
    requires name != ""
    ensures EndsWith(QualifyName(name, zone), zone) || EndsWith(QualifyName(name, zone), ".")
  {
    var q := QualifyName(name, zone);
    if q != name {
      assert q[|q| - |zone|..] == zone;
    }
  }

  /** Qualifying an already qualified name changes nothing. */
  lemma QualifyIdempotent(name: string, zone: string)
    ensures QualifyName(QualifyName(name, zone), zone) == QualifyName(name, zone)
  {
    var q := QualifyName(name, zone);
    if q != name {
      assert q[|q| - |zone|..] == zone;
    }
  }

  /** The zone test is a plain suffix test: "myexample.com" already ends with
      "example.com", so it is not qualified. */
  lemma QualifyNoDotBoundary()
    ensures QualifyName("myexample.com", "example.com") == "myexample.com"
    ensures QualifyName("www", "example.com") == "www.example.com"
    ensures QualifyName("host.", "example.com") == "host."
  {
    assert "myexample.com"[2..] == "example.com";
  }

  /** The dialog's field values as `_on_save` reads them. */
  datatype EditorFields = EditorFields(
    rtype: string,
    name: string,
    content: string,
    ttl: int,
    proxied: bool,
    priority: int)

  /** The record dictionary `_on_save` builds: trimmed content, qualified trimmed name,
      `proxied` always present, `priority` only for MX and SRV, and on an edit the
      existing record's id. */
  function BuildRecord(f: EditorFields, zone: string, existing: Option<Record>): (r: Record)
    ensures r.rtype == f.rtype && r.ttl == Some(f.ttl) && r.data == EmptyData
    ensures r.name == QualifyName(Trim(f.name), zone) && ContentOf(r) == Trim(f.content)
    ensures r.proxied.Some? && (r.proxied.value ==> f.rtype in ProxyTypes)
    ensures f.rtype in ProxyTypes ==> r.proxied == Some(f.proxied)
    ensures r.priority.Some? <==> f.rtype in PriorityTypes
    ensures r.priority.Some? ==> r.priority.value == f.priority
    ensures existing.Some? ==> r.id == existing.value.id
    ensures existing.None? ==> r.id == None
  {
    var id := if existing.Some? then existing.value.id else None;
    Record(
      id,
      f.rtype,
      QualifyName(Trim(f.name), zone),
      Some(Trim(f.content)),
      Some(f.ttl),
      Some(if f.rtype in ProxyTypes then f.proxied else false),
      if f.rtype in PriorityTypes then Some(f.priority) else None,
      EmptyData)
  }

  /** `_on_save` past the widget reads: the built record when it validates (it becomes
      the dialog's result), otherwise the error shown in the error label. */
  function Save(f: EditorFields, zone: string, existing: Option<Record>): (res: Result<Record, ValidationError>)
    ensures res.Ok? ==> res.value == BuildRecord(f, zone, existing)
    ensures res.Err? ==> ValidateRecord(BuildRecord(f, zone, existing)) == Some(res.error)
  {
    var record := BuildRecord(f, zone, existing);
    match ValidateRecord(record)
    case Some(e) => Err(e)
    case None => Ok(record)
  }

  lemma TrimNonBlank(s: string)
    requires s != [] && !IsSpace(s[0])
    ensures Trim(s) != []
  {
  }

  /** Qualification neither creates nor removes a non-blank name. */
  lemma QualifiedNameBlank(name: string, zone: string)
    ensures Trim(QualifyName(Trim(name), zone)) == "" <==> Trim(name) == ""
  {
    var t := Trim(name);
    StripIdempotent(name, IsSpace);
    if t != "" {
      var q := QualifyName(t, zone);
      assert q[0] == t[0];
      TrimNonBlank(q);
    }
  }

  /** The dialog accepts its fields exactly when the type is supported, the trimmed name
      and content are not blank, and A or AAAA content has the address form; the zone,
      the ttl, the toggles and the record being edited play no part. */
  lemma SaveAcceptsIff(f: EditorFields, zone: string, existing: Option<Record>)
    ensures Save(f, zone, existing).Ok? <==>
      f.rtype in SupportedTypes && Trim(f.name) != "" && Trim(f.content) != ""
      && (f.rtype == "A" ==> IsIPv4(Trim(f.content)))
      && (f.rtype == "AAAA" ==> IsIPv6(Trim(f.content)))
  {
    QualifiedNameBlank(f.name, zone);
    StripIdempotent(f.content, IsSpace);
  }

  /** Editing an existing record keeps its id, and a new record has none, so the sync
      engine updates the former and creates the latter. */
  lemma SaveKeepsIdentity(f: EditorFields, zone: string, existing: Option<Record>)
    requires Save(f, zone, existing).Ok?
    ensures existing.Some? ==> Save(f, zone, existing).value.id == existing.value.id
    ensures existing.None? ==> !HasId(Save(f, zone, existing).value)
  {
  }
}

/** The content checks and the type check on the values of the repository's own
    validation tests. */
module RecordEditorExamples {
  import opened Wrappers
  import opened Records
  import opened RecordEditor

  /** A dotted quad is an IPv4 address and not an IPv6 address. */
  lemma DottedQuad()
    ensures IsIPv4("1.2.3.4") && !IsIPv6("1.2.3.4")
  {
    var quad := ["1", "2", "3", "4"];
    assert Text.Join(quad, ".") == "1.2.3.4";
    SplitJoin(quad, '.');
    forall i | 0 <= i < 4 ensures IsOctet(quad[i]) {
      OneDigitValue(quad[i]);
    }
    IPv4IsNotIPv6("1.2.3.4");
  }

  /** A word has no dots, so it is a single group and not an IPv4 address. */
  lemma WordIsNotIPv4()
    ensures !IsIPv4("not-an-ip")
  {
    SplitWithoutSep("not-an-ip", '.');
  }

  /** Colon-separated hex groups are an IPv6 address. */
  lemma HexGroupsAreIPv6()
    ensures IsIPv6("2001:db8::1")
  {
    var s := "2001:db8::1";
    forall i | 0 <= i < |s| ensures IsHexOrColon(s[i]) {
      assert s[i] in "0123456789abcdef:";
    }
  }

  /** An octet above 255 makes the quad invalid. */
  lemma OctetAbove255()
    ensures !IsIPv4("256.0.0.1")
  {
    var quad := ["256", "0", "0", "1"];
    assert Text.Join(quad, ".") == "256.0.0.1";
    SplitJoin(quad, '.');
    ThreeDigitValue("256");
  }

  /** NS is not a type the editor supports. */
  lemma NsUnsupported()
    ensures ValidateRecord(Record(None, "NS", "x.com", Some("ns1.x.com"), None, None, None, EmptyData))
         == Some(UnsupportedType("NS"))
  {
    assert "NS" !in SupportedTypes;
  }
}
