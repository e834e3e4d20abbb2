/** STIX export (app/sharing/stix.py) and the repository's own reader of the exported
    patterns (app/ioc/extract.py). String literals follow section 9 of OASIS STIX 2.1. */
module Stix {
  import opened Wrappers
  import opened Text
  import opened Escaping
  import opened Harvest

  datatype IocType =
    | Ipv4 | Ipv6 | Domain | Url | Md5 | Sha1 | Sha256 | Email | Hostname
    | Cve | MitreTechnique | Yara | Sigma

  function TypeValue(t: IocType): string {
    match t
    case Ipv4 => "ipv4-addr"
    case Ipv6 => "ipv6-addr"
    case Domain => "domain-name"
    case Url => "url"
    case Md5 => "md5"
    case Sha1 => "sha1"
    case Sha256 => "sha256"
    case Email => "email-addr"
    case Hostname => "hostname"
    case Cve => "cve"
    case MitreTechnique => "attack-pattern"
    case Yara => "yara"
    case Sigma => "sigma"
  }

  const SPECIAL: set<char> := {ESCAPE_CHAR, '\''}

  /** The two replacements of the exporter. */
  function EscapeValue(value: string): string {
    Escape('\'', Escape(ESCAPE_CHAR, value))
  }

  lemma EscapeValueIsEach(value: string)
    ensures EscapeValue(value) == EscapeEach(SPECIAL, value)
  {
    EscapeFirst(value);
    EscapeNext({ESCAPE_CHAR}, '\'', value);
    assert {ESCAPE_CHAR} + {'\''} == SPECIAL;
  }

  /** What stands before the equals sign of a pattern; nothing for a type without one. */
  function Compared(t: IocType): Option<string> {
    match t
    case Ipv4 | Ipv6 | Domain | Url | Email => Some("[" + TypeValue(t) + ":value ")
    case Hostname => Some("[domain-name:value ")
    case Md5 => Some("[file:hashes.'MD5' ")
    case Sha1 => Some("[file:hashes.'SHA-1' ")
    case Sha256 => Some("[file:hashes.'SHA-256' ")
    case Cve | MitreTechnique | Yara | Sigma => None
  }

  function StixPattern(t: IocType, value: string): Option<string> {
    match Compared(t)
    case None => None
    case Some(left) => Some(left + "= '" + EscapeValue(value) + "']")
  }

  // ---------------------------------------------------------------- the scanner

  /** The length of a literal's body: plain characters and escape pairs up to the first
      quote outside a pair. A pair's second character is not a line break. */
  function BodyLength(s: string): Option<nat> {
    if s == "" then None
    else if s[0] == '\'' then Some(0)
    else if s[0] == ESCAPE_CHAR then
      if |s| < 2 || s[1] == '\n' then None
      else match BodyLength(s[2..]) case None => None case Some(n) => Some(n + 2)
    else match BodyLength(s[1..]) case None => None case Some(n) => Some(n + 1)
  }

  lemma {:induction false} BodyInside(s: string)
    ensures BodyLength(s).Some? ==> BodyLength(s).value < |s|
  {
    if s != "" && s[0] == ESCAPE_CHAR && |s| >= 2 {
      BodyInside(s[2..]);
    } else if s != "" {
      BodyInside(s[1..]);
    }
  }

  /** The body of the literal that begins right after an equals sign, if one does, and the rest. */
  function LiteralAfterEquals(s: string): (r: Option<(string, string)>)
    ensures r.Some? ==> |r.value.1| < |s|
  {
    var q := StripLeft(s);
    StripLeftSuffix(s);
    if q == "" || q[0] != '\'' then None
    else
      BodyInside(q[1..]);
      match BodyLength(q[1..])
      case None => None
      case Some(n) => Some((q[1..][..n], q[1..][n + 1..]))
  }

  /** The bodies of all `= '...'` literals of a pattern, left to right. */
  function Scan(p: string): seq<string>
    decreases |p|
  {
    if p == "" then []
    else if p[0] != '=' then Scan(p[1..])
    else match LiteralAfterEquals(p[1..])
      case None => Scan(p[1..])
      case Some((body, rest)) => [body] + Scan(rest)
  }

  function Unescape(body: string): string {
    ReplaceAll(Lit("\\'"), "'", body)
  }

  lemma {:induction false} ScanSkips(w: string, p: string)
    requires '=' !in w
    ensures Scan(w + p) == Scan(p)
  {
    if w == "" {
      assert w + p == p;
    } else {
      assert (w + p)[0] == w[0] && w[0] in w && (w + p)[1..] == w[1..] + p;
      ScanSkips(w[1..], p);
    }
  }

  /** An escaped value is read up to the quote that closes it, whatever follows. */
  lemma {:induction false} EscapedBody(v: string, tail: string)
    ensures BodyLength(EscapeEach(SPECIAL, v) + "'" + tail) == Some(|EscapeEach(SPECIAL, v)|)
  {
    var s := EscapeEach(SPECIAL, v) + "'" + tail;
    if v == "" {
      assert s[0] == '\'';
    } else {
      EscapedBody(v[1..], tail);
      var n := if v[0] in SPECIAL then 2 else 1;
      assert s[n..] == EscapeEach(SPECIAL, v[1..]) + "'" + tail;
      assert n == 2 ==> s[0] == ESCAPE_CHAR && s[1] == v[0];
      assert n == 1 ==> s[0] == v[0];
    }
  }

  lemma NoEquals(t: IocType)
    ensures Compared(t).Some? ==> '=' !in Compared(t).value
  {
    assert '=' !in "[" && '=' !in TypeValue(t) && '=' !in ":value ";
  }

  /** The literal right after an equals sign. */
  lemma LiteralRead(v: string, tail: string)
    ensures LiteralAfterEquals(" '" + EscapeEach(SPECIAL, v) + "'" + tail) == Some((EscapeEach(SPECIAL, v), tail))
  {
    var e := EscapeEach(SPECIAL, v);
    var s := " '" + e + "'" + tail;
    var q := "'" + (e + "'" + tail);
    assert s[1..] == q;
    assert StripLeft(q) == q && StripLeft(s) == StripLeft(s[1..]);
    assert q[1..] == e + "'" + tail;
    EscapedBody(v, tail);
    assert q[1..][..|e|] == e && q[1..][|e| + 1..] == tail;
  }

  lemma ScanLiteral(left: string, v: string)
    requires '=' !in left
    ensures Scan(left + (['='] + (" '" + EscapeEach(SPECIAL, v) + "'" + "]"))) == [EscapeEach(SPECIAL, v)]
  {
    var s := " '" + EscapeEach(SPECIAL, v) + "'" + "]";
    ScanSkips(left, ['='] + s);
    assert (['='] + s)[1..] == s;
    LiteralRead(v, "]");
    ScanSkips("]", "");
    assert "]" + "" == "]";
  }

  lemma PatternParts(left: string, e: string)
    ensures left + "= '" + e + "']" == left + (['='] + (" '" + e + "'" + "]"))
  {
  }

  /** For every value, the reader finds exactly one literal in its pattern, and the
      body of that literal is exactly the escaped value. */
  lemma OneLiteral(t: IocType, v: string)
    requires StixPattern(t, v).Some?
    ensures Scan(StixPattern(t, v).value) == [EscapeValue(v)]
  {
    PatternParts(Compared(t).value, EscapeValue(v));
    NoEquals(t);
    EscapeValueIsEach(v);
    ScanLiteral(Compared(t).value, v);
  }

  /** Two indicators with the same pattern have the same value. */
  lemma EqualPatternsEqualValues(t1: IocType, v1: string, t2: IocType, v2: string)
    requires StixPattern(t1, v1).Some? && StixPattern(t1, v1) == StixPattern(t2, v2)
    ensures v1 == v2
  {
    OneLiteral(t1, v1);
    OneLiteral(t2, v2);
    assert [EscapeValue(v1)][0] == [EscapeValue(v2)][0];
    EscapeValueIsEach(v1);
    EscapeValueIsEach(v2);
    EscapeInjective(SPECIAL, v1, v2);
  }

  function Mark(t: IocType): char {
    match t
    case Ipv4 | Ipv6 => 'i'
    case Domain | Hostname => 'd'
    case Url => 'u'
    case Email => 'e'
    case _ => 'f'
  }

  /** The characters that tell what a pattern compares. */
  lemma LeftMarks(t: IocType)
    requires Compared(t).Some?
    ensures var p := Compared(t).value;
      && |p| > 4
      && p[1] == Mark(t)
      && (t.Ipv4? ==> p[4] == '4') && (t.Ipv6? ==> p[4] == '6')
      && (t in {Md5, Sha1, Sha256} ==> |p| > 18 && (p[14] == 'M' <==> t.Md5?) && (p[18] == '1' <==> t.Sha1?))
  {
  }

  lemma LeftIsPrefix(t: IocType, v: string)
    requires StixPattern(t, v).Some?
    ensures Compared(t).value <= StixPattern(t, v).value
  {
  }

  lemma HostnameLikeDomain(v: string)
    ensures StixPattern(Hostname, v) == StixPattern(Domain, v)
  {
    assert "[" + TypeValue(Domain) + ":value " == "[domain-name:value ";
  }

  lemma SameMarks(t1: IocType, v1: string, t2: IocType, v2: string)
    requires StixPattern(t1, v1).Some? && StixPattern(t1, v1) == StixPattern(t2, v2)
    ensures t1 == t2 || (t1 in {Domain, Hostname} && t2 in {Domain, Hostname})
  {
    var left1, left2, p := Compared(t1).value, Compared(t2).value, StixPattern(t1, v1).value;
    LeftIsPrefix(t1, v1);
    LeftIsPrefix(t2, v2);
    LeftMarks(t1);
    LeftMarks(t2);
    assert left1[1] == p[1] == left2[1] && left1[4] == p[4] == left2[4];
    if |left1| > 18 && |left2| > 18 {
      assert left1[14] == p[14] == left2[14] && left1[18] == p[18] == left2[18];
    }
  }

  /** Two patterns are equal exactly when they are for the same value and compare the same
      thing: the same type, or a domain and a host name, which are exported alike. */
  lemma EqualPatternsIff(t1: IocType, v1: string, t2: IocType, v2: string)
    requires StixPattern(t1, v1).Some? && StixPattern(t2, v2).Some?
    ensures StixPattern(t1, v1) == StixPattern(t2, v2)
       <==> v1 == v2 && (t1 == t2 || (t1 in {Domain, Hostname} && t2 in {Domain, Hostname}))
  {
    HostnameLikeDomain(v1);
    if StixPattern(t1, v1) == StixPattern(t2, v2) {
      EqualPatternsEqualValues(t1, v1, t2, v2);
      SameMarks(t1, v1, t2, v2);
    }
  }

  // --------------------------------------------------------------- the unescaping

  lemma UnescapeStep(s: string)
    requires s != "" && !StartsWith(Lit("\\'"), s)
    ensures Unescape(s) == [s[0]] + Unescape(s[1..])
  {
  }

  /** The reader takes back the escapes of quotes and leaves those of backslashes. */
  lemma {:induction false} UnescapeDoubles(v: string)
    ensures Unescape(EscapeEach(SPECIAL, v)) == Escape(ESCAPE_CHAR, v)
  {
    var tok := Lit("\\'");
    if v != "" {
      UnescapeDoubles(v[1..]);
      EscapeStep(ESCAPE_CHAR, v);
      var rest := EscapeEach(SPECIAL, v[1..]);
      if v[0] == '\'' {
        var x := ['\\', '\''] + rest;
        assert StartsWith(tok, x) && x[2..] == rest;
      } else if v[0] == ESCAPE_CHAR {
        assert rest != "" ==> rest[0] != '\'';
        PairStays(rest);
      } else {
        assert tok[0] == {ESCAPE_CHAR} && ([v[0]] + rest)[0 - 0] == v[0];
        UnescapeStep([v[0]] + rest);
        assert ([v[0]] + rest)[1..] == rest;
      }
    }
  }

  /** An escaped backslash is no escaped quote. */
  lemma PairStays(rest: string)
    requires rest != "" ==> rest[0] != '\''
    ensures Unescape([ESCAPE_CHAR, ESCAPE_CHAR] + rest) == [ESCAPE_CHAR, ESCAPE_CHAR] + Unescape(rest)
  {
    var tok := Lit("\\'");
    var y := [ESCAPE_CHAR] + rest;
    var x := [ESCAPE_CHAR] + y;
    assert x[1..] == y && y[1..] == rest && x == [ESCAPE_CHAR, ESCAPE_CHAR] + rest;
    assert !StartsWith(tok, x) && !StartsWith(tok, y) by {
      assert tok[1] == {'\''} && x[1] == ESCAPE_CHAR && (rest != "" ==> y[1] == rest[0]);
    }
    UnescapeStep(x);
    UnescapeStep(y);
  }

  lemma HoldsBackslash(v: string)
    ensures Occurs(Lit([ESCAPE_CHAR]), v) <==> ESCAPE_CHAR in v
  {
    if Occurs(Lit([ESCAPE_CHAR]), v) {
      var i :| 0 <= i <= |v| && StartsWith(Lit([ESCAPE_CHAR]), v[i..]);
      assert v[i..][0 - 0] in Lit([ESCAPE_CHAR])[0] && v[i] == v[i..][0];
    }
    if i :| 0 <= i < |v| && v[i] == ESCAPE_CHAR {
      assert StartsWith(Lit([ESCAPE_CHAR]), v[i..]);
    }
  }

  /** Reading an exported value gives it back exactly when it holds no backslash. */
  lemma UnescapeIff(v: string)
    ensures Unescape(EscapeValue(v)) == v <==> ESCAPE_CHAR !in v
  {
    EscapeValueIsEach(v);
    UnescapeDoubles(v);
    HoldsBackslash(v);
    ReplaceLength(Lit([ESCAPE_CHAR]), [ESCAPE_CHAR, ESCAPE_CHAR], v, 1);
    CountsOccurrences(Lit([ESCAPE_CHAR]), [ESCAPE_CHAR, ESCAPE_CHAR], v);
  }

  // ------------------------------------------------------------------ the bundle

  /** The fields of an indicator row that the export reads. */
  datatype Ioc = Ioc(ioctype: string, value: string)

  /** The fields of an exported object that the reader looks at. */
  datatype StixObject = StixObject(kind: string, pattern: Option<string>, externalIds: seq<string>)

  const IDENTITY: StixObject := StixObject("identity", None, [])

  const ALL_TYPES: seq<IocType> :=
    [Ipv4, Ipv6, Domain, Url, Md5, Sha1, Sha256, Email, Hostname, Cve, MitreTechnique, Yara, Sigma]

  /** `IOCType(name)`, which fails for an unknown name. */
  function ParseType(name: string): Option<IocType> {
    FindType(name, ALL_TYPES)
  }

  function FindType(name: string, types: seq<IocType>): Option<IocType> {
    if types == [] then None
    else if TypeValue(types[0]) == name then Some(types[0])
    else FindType(name, types[1..])
  }

  function SdoFor(ioc: Ioc): Option<StixObject> {
    match ParseType(ioc.ioctype)
    case None => None
    case Some(t) =>
      if t == Cve then Some(StixObject("vulnerability", None, [ioc.value]))
      else if t == MitreTechnique then Some(StixObject("attack-pattern", None, [ioc.value]))
      else
        match StixPattern(t, ioc.value)
        case None => None
        case Some(p) => Some(StixObject("indicator", Some(p), []))
  }

  function Exported(iocs: seq<Ioc>): seq<StixObject> {
    if iocs == [] then []
    else
      var n := |iocs| - 1;
      match SdoFor(iocs[n])
      case None => Exported(iocs[..n])
      case Some(sdo) => Exported(iocs[..n]) + [sdo]
  }

  method ToStixBundle(iocs: seq<Ioc>) returns (objects: seq<StixObject>)
    ensures objects == [IDENTITY] + Exported(iocs)
  {
    objects := [IDENTITY];
    for k := 0 to |iocs|
      invariant objects == [IDENTITY] + Exported(iocs[..k])
    {
      assert iocs[..k + 1][..k] == iocs[..k];
      var sdo := SdoFor(iocs[k]);
      if sdo.Some? {
        objects := objects + [sdo.value];
      }
    }
    assert iocs[..|iocs|] == iocs;
  }

  lemma NamesDiffer(t1: IocType, t2: IocType)
    requires TypeValue(t1) == TypeValue(t2)
    ensures t1 == t2
  {
    var a, b := TypeValue(t1), TypeValue(t2);
    assert |a| == |b| && a[0] == b[0] && (|a| > 3 ==> a[3] == b[3]);
  }

  lemma {:induction false} NameFound(t: IocType, types: seq<IocType>)
    requires t in types
    ensures FindType(TypeValue(t), types) == Some(t)
  {
    if TypeValue(types[0]) == TypeValue(t) {
      NamesDiffer(types[0], t);
    } else {
      NameFound(t, types[1..]);
    }
  }

  /** The name of a type is read as that type. */
  lemma TypeParses(t: IocType)
    ensures ParseType(TypeValue(t)) == Some(t)
  {
    assert t in ALL_TYPES;
    NameFound(t, ALL_TYPES);
  }

  /** An exported indicator with a pattern. */
  function AsIndicator(compared: string, value: string): Option<StixObject> {
    Some(StixObject("indicator", Some(compared + "= '" + EscapeEach(SPECIAL, value) + "']"), []))
  }

  /** The text before the equals sign, type by type. */
  lemma NetworkTexts()
    ensures Compared(Ipv4) == Some("[ipv4-addr:value ")
    ensures Compared(Ipv6) == Some("[ipv6-addr:value ")
    ensures Compared(Domain) == Compared(Hostname) == Some("[domain-name:value ")
  {
    assert "[" + "ipv4-addr" + ":value " == "[ipv4-addr:value ";
    assert "[" + "ipv6-addr" + ":value " == "[ipv6-addr:value ";
    assert "[" + "domain-name" + ":value " == "[domain-name:value ";
  }

  lemma OtherTexts()
    ensures Compared(Url) == Some("[url:value ")
    ensures Compared(Email) == Some("[email-addr:value ")
    ensures Compared(Md5) == Some("[file:hashes.'MD5' ")
    ensures Compared(Sha1) == Some("[file:hashes.'SHA-1' ")
    ensures Compared(Sha256) == Some("[file:hashes.'SHA-256' ")
  {
    assert "[" + "url" + ":value " == "[url:value ";
    assert "[" + "email-addr" + ":value " == "[email-addr:value ";
  }

  lemma SdoOfType(name: string, t: IocType, value: string)
    requires name == TypeValue(t)
    ensures SdoFor(Ioc(name, value)) ==
      if t == Cve then Some(StixObject("vulnerability", None, [value]))
      else if t == MitreTechnique then Some(StixObject("attack-pattern", None, [value]))
      else if Compared(t).Some? then AsIndicator(Compared(t).value, value) else None
  {
    TypeParses(t);
    EscapeValueIsEach(value);
  }

  /** An identifier becomes a vulnerability or an attack pattern; rules are not exported. */
  lemma ExportedById(name: string, value: string)
    ensures name == "cve" ==> SdoFor(Ioc(name, value)) == Some(StixObject("vulnerability", None, [value]))
    ensures name == "attack-pattern" ==>
      SdoFor(Ioc(name, value)) == Some(StixObject("attack-pattern", None, [value]))
    ensures name == "yara" || name == "sigma" ==> SdoFor(Ioc(name, value)) == None
  {
    if name == "cve" {
      SdoOfType(name, Cve, value);
    } else if name == "attack-pattern" {
      SdoOfType(name, MitreTechnique, value);
    } else if name == "yara" {
      SdoOfType(name, Yara, value);
    } else if name == "sigma" {
      SdoOfType(name, Sigma, value);
    }
  }

  /** A network address becomes an indicator that compares it as what it is. */
  lemma ExportedAddress(name: string, value: string)
    ensures name == "ipv4-addr" ==> SdoFor(Ioc(name, value)) == AsIndicator("[ipv4-addr:value ", value)
    ensures name == "ipv6-addr" ==> SdoFor(Ioc(name, value)) == AsIndicator("[ipv6-addr:value ", value)
    ensures name == "domain-name" || name == "hostname" ==>
      SdoFor(Ioc(name, value)) == AsIndicator("[domain-name:value ", value)
    ensures name == "url" ==> SdoFor(Ioc(name, value)) == AsIndicator("[url:value ", value)
    ensures name == "email-addr" ==> SdoFor(Ioc(name, value)) == AsIndicator("[email-addr:value ", value)
  {
    NetworkTexts();
    OtherTexts();
    if name == "ipv4-addr" {
      SdoOfType(name, Ipv4, value);
    } else if name == "ipv6-addr" {
      SdoOfType(name, Ipv6, value);
    } else if name == "domain-name" {
      SdoOfType(name, Domain, value);
    } else if name == "hostname" {
      SdoOfType(name, Hostname, value);
    } else if name == "url" {
      SdoOfType(name, Url, value);
    } else if name == "email-addr" {
      SdoOfType(name, Email, value);
    }
  }

  /** A hash becomes an indicator that names its algorithm. */
  lemma ExportedHash(name: string, value: string)
    ensures name == "md5" ==> SdoFor(Ioc(name, value)) == AsIndicator("[file:hashes.'MD5' ", value)
    ensures name == "sha1" ==> SdoFor(Ioc(name, value)) == AsIndicator("[file:hashes.'SHA-1' ", value)
    ensures name == "sha256" ==> SdoFor(Ioc(name, value)) == AsIndicator("[file:hashes.'SHA-256' ", value)
  {
    OtherTexts();
    if name == "md5" {
      SdoOfType(name, Md5, value);
    } else if name == "sha1" {
      SdoOfType(name, Sha1, value);
    } else if name == "sha256" {
      SdoOfType(name, Sha256, value);
    }
  }

  // ------------------------------------------------------------------ the reader

  function UnescapeAll(bodies: seq<string>): (r: seq<string>)
    ensures |r| == |bodies|
  {
    seq(|bodies|, i requires 0 <= i < |bodies| => Unescape(bodies[i]))
  }

  function NonEmptyOnes(ids: seq<string>): seq<string> {
    if ids == [] then []
    else
      var n := |ids| - 1;
      NonEmptyOnes(ids[..n]) + if ids[n] == "" then [] else [ids[n]]
  }

  /** The candidate values of one object. */
  function ValuesOf(obj: StixObject): seq<string> {
    if obj.kind == "vulnerability" || obj.kind == "attack-pattern" then NonEmptyOnes(obj.externalIds)
    else if obj.pattern.Some? then UnescapeAll(Scan(obj.pattern.value))
    else []
  }

  function ReadValues(objects: seq<StixObject>): seq<string> {
    if objects == [] then []
    else ReadValues(objects[..|objects| - 1]) + ValuesOf(objects[|objects| - 1])
  }

  method ExtractFromStix(classify: Classifier, objects: seq<StixObject>, limit: int) returns (found: seq<string>)
    ensures found == Harvested(classify, ReadValues(objects), limit)
  {
    var values: seq<string> := [];
    for k := 0 to |objects|
      invariant values == ReadValues(objects[..k])
    {
      assert objects[..k + 1][..k] == objects[..k];
      var obj := objects[k];
      if obj.kind == "vulnerability" || obj.kind == "attack-pattern" {
        var ids := obj.externalIds;
        ghost var before := values;
        for i := 0 to |ids|
          invariant values == before + NonEmptyOnes(ids[..i])
        {
          assert ids[..i + 1][..i] == ids[..i];
          if ids[i] != "" {
            values := values + [ids[i]];
          }
        }
        assert ids[..|ids|] == ids;
        continue;
      }
      if obj.pattern.Some? {
        values := values + UnescapeAll(Scan(obj.pattern.value));
      }
    }
    assert objects[..|objects|] == objects;
    found := CollectAlways(classify, values, limit);
  }

  /** The collecting loop of the STIX reader, which looks at the limit after every
      candidate that classifies. */
  method CollectAlways(classify: Classifier, values: seq<string>, limit: int) returns (found: seq<string>)
    ensures found == Harvested(classify, values, limit)
  {
    var seen: set<Parsed> := {};
    found := [];
    ghost var sofar: seq<Parsed> := [];
    for k := 0 to |values|
      invariant sofar == Found(classify, values, k)
      invariant found == Values(sofar) && |found| < Cap(limit)
      invariant forall p :: p in seen <==> p in sofar
    {
      var parsed := classify(values[k]);
      if parsed.None? {
        continue;
      }
      if parsed.value !in seen {
        sofar := sofar + [parsed.value];
        seen := seen + {parsed.value};
        found := found + [parsed.value.value];
      }
      if |found| >= limit {
        Stopped(classify, values, k + 1, limit);
        break;
      }
    }
    if |found| < Cap(limit) {
      Stopped(classify, values, |values|, limit);
    }
  }

  // -------------------------------------------------------------- the round trip

  /** A row whose type has a STIX form. */
  predicate Representable(ioc: Ioc) {
    SdoFor(ioc).Some?
  }

  function RepresentableValues(iocs: seq<Ioc>): seq<string> {
    if iocs == [] then []
    else
      var n := |iocs| - 1;
      RepresentableValues(iocs[..n]) + if Representable(iocs[n]) then [iocs[n].value] else []
  }

  /** The types that are exported as an external identifier instead of a pattern. */
  predicate ById(ioc: Ioc) {
    ParseType(ioc.ioctype) in {Some(Cve), Some(MitreTechnique)}
  }

  /** Nothing of the value is lost on the way: an identifier is not empty, a value in a
      pattern holds no backslash. */
  ghost predicate ReadsBack(ioc: Ioc) {
    if ById(ioc) then ioc.value != "" else ESCAPE_CHAR !in ioc.value
  }

  /** A row that reads back, with a value that classification leaves as it is. */
  ghost predicate Stable(classify: Classifier, ioc: Ioc) {
    ReadsBack(ioc) && classify(ioc.value).Some? && classify(ioc.value).value.value == ioc.value
  }

  lemma {:induction false} ExportedReadsBack(iocs: seq<Ioc>)
    requires forall i | 0 <= i < |iocs| && Representable(iocs[i]) :: ReadsBack(iocs[i])
    ensures ReadValues(Exported(iocs)) == RepresentableValues(iocs)
  {
    if iocs != [] {
      var n := |iocs| - 1;
      ExportedReadsBack(iocs[..n]);
      if Representable(iocs[n]) {
        var sdo := SdoFor(iocs[n]).value;
        ObjectReadsBackIff(iocs[n]);
        assert (Exported(iocs[..n]) + [sdo])[..|Exported(iocs[..n])|] == Exported(iocs[..n]);
      }
    }
  }

  lemma OneNonEmpty(id: string)
    ensures NonEmptyOnes([id]) == if id == "" then [] else [id]
  {
    assert [id][..0] == [];
  }

  /** An exported row is read back exactly when its value is not empty, if it is exported as
      an identifier, or holds no backslash, if it is exported as a pattern. */
  lemma ObjectReadsBackIff(ioc: Ioc)
    requires Representable(ioc)
    ensures ValuesOf(SdoFor(ioc).value) == [ioc.value] <==> ReadsBack(ioc)
  {
    var t := ParseType(ioc.ioctype).value;
    if ById(ioc) {
      OneNonEmpty(ioc.value);
    } else {
      OneLiteral(t, ioc.value);
      UnescapeIff(ioc.value);
    }
  }

  lemma {:induction false} ReadValuesFront(first: StixObject, objects: seq<StixObject>)
    ensures ReadValues([first] + objects) == ValuesOf(first) + ReadValues(objects)
  {
    var all := [first] + objects;
    if objects == [] {
      assert all[..0] == [] && all[0] == first;
    } else {
      var n := |objects| - 1;
      ReadValuesFront(first, objects[..n]);
      assert all[..|all| - 1] == [first] + objects[..n] && all[|all| - 1] == objects[n];
      ConcatAssoc(ValuesOf(first), ReadValues(objects[..n]), ValuesOf(objects[n]));
    }
  }

  lemma {:induction false} RepresentableFrom(iocs: seq<Ioc>)
    ensures forall v | v in RepresentableValues(iocs) :: exists i ::
        0 <= i < |iocs| && Representable(iocs[i]) && iocs[i].value == v
  {
    if iocs != [] {
      RepresentableFrom(iocs[..|iocs| - 1]);
    }
  }

  /** Values that classification leaves as they are. */
  ghost predicate Fixed(classify: Classifier, vs: seq<string>) {
    forall v | v in vs :: classify(v).Some? && classify(v).value.value == v
  }

  lemma {:induction false} CanonicalOfFixed(classify: Classifier, vs: seq<string>)
    requires Fixed(classify, vs)
    ensures |Canonical(classify, vs)| == |vs|
    ensures forall i | 0 <= i < |vs| :: Canonical(classify, vs)[i] == classify(vs[i]).value
  {
    if vs != [] {
      CanonicalOfFixed(classify, vs[..|vs| - 1]);
    }
  }

  /** De-duplication commutes with dropping what the value determines. */
  lemma {:induction false} DistinctValues(ps: seq<Parsed>)
    requires forall p, q | p in ps && q in ps && p.value == q.value :: p == q
    ensures Values(Distinct(ps)) == Distinct(Values(ps))
  {
    if ps != [] {
      var n := |ps| - 1;
      var init, d := ps[..n], Distinct(ps[..n]);
      DistinctValues(init);
      assert Values(ps)[..n] == Values(init);
      DistinctElements(init);
      assert ps[n] in d <==> ps[n].value in Values(d) by {
        if i :| 0 <= i < |d| && Values(d)[i] == ps[n].value {
          assert d[i] in d && d[i] in init && d[i] in ps && ps[n] in ps;
        }
        if i :| 0 <= i < |d| && d[i] == ps[n] {
          assert Values(d)[i] == ps[n].value;
        }
      }
    }
  }

  /** Over values that classification leaves alone, de-duplicating the classified
      forms is de-duplicating the values. */
  lemma {:induction false} FixedDistinct(classify: Classifier, vs: seq<string>)
    requires Fixed(classify, vs)
    ensures Values(Distinct(Canonical(classify, vs))) == Distinct(vs)
  {
    var ps := Canonical(classify, vs);
    CanonicalOfFixed(classify, vs);
    forall p, q | p in ps && q in ps && p.value == q.value ensures p == q {
      var i :| 0 <= i < |ps| && ps[i] == p;
      var j :| 0 <= j < |ps| && ps[j] == q;
      assert vs[i] in vs && vs[j] in vs;
    }
    DistinctValues(ps);
    assert Values(ps) == vs by {
      forall i | 0 <= i < |vs| ensures Values(ps)[i] == vs[i] { assert vs[i] in vs; }
    }
  }

  lemma ValuesOfTake(ps: seq<Parsed>, n: nat)
    ensures Values(Take(ps, n)) == Take(Values(ps), n)
  {
  }

  lemma {:induction false} FixedHarvest(classify: Classifier, vs: seq<string>, limit: int)
    requires Fixed(classify, vs)
    ensures Harvested(classify, vs, limit) == Take(Distinct(vs), Cap(limit))
  {
    FixedDistinct(classify, vs);
    ValuesOfTake(Distinct(Canonical(classify, vs)), Cap(limit));
  }

  lemma {:induction false} BundleReadsBack(classify: Classifier, iocs: seq<Ioc>)
    requires forall i | 0 <= i < |iocs| && Representable(iocs[i]) :: Stable(classify, iocs[i])
    ensures ReadValues([IDENTITY] + Exported(iocs)) == RepresentableValues(iocs)
    ensures Fixed(classify, RepresentableValues(iocs))
  {
    ReadValuesFront(IDENTITY, Exported(iocs));
    ExportedReadsBack(iocs);
    RepresentableFrom(iocs);
  }

  /** Exporting indicators and extracting the bundle returns the representable values,
      in order, without duplicates, up to the limit. */
  lemma {:induction false} BundleRoundTrip(classify: Classifier, iocs: seq<Ioc>, limit: int)
    requires forall i | 0 <= i < |iocs| && Representable(iocs[i]) :: Stable(classify, iocs[i])
    ensures Harvested(classify, ReadValues([IDENTITY] + Exported(iocs)), limit)
         == Take(Distinct(RepresentableValues(iocs)), Cap(limit))
  {
    BundleReadsBack(classify, iocs);
    FixedHarvest(classify, RepresentableValues(iocs), limit);
  }
}
