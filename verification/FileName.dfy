/** The names of the files of a database: making them and parsing them back. */
module FileName {
  import opened Basics
  import opened Decimal

  const MaxUint64: nat := 0xFFFF_FFFF_FFFF_FFFF

  // ---- the makers

  const TempSuffix: string := "dbtmp"
  const OptionsPrefix: string := "OPTIONS-"
  const ArchivalDir: string := "archive"

  function MakeFileName(number: nat, suffix: string): string { Padded(number, 6) + "." + suffix }

  function Under(dir: string, base: string): string { dir + "/" + base }

  function LogFileName(dir: string, number: nat): string { Under(dir, MakeFileName(number, "log")) }

  function ArchivedLogFileName(dir: string, number: nat): string { LogFileName(Under(dir, ArchivalDir), number) }

  function BlobFileName(dir: string, number: nat): string { Under(dir, MakeFileName(number, "blob")) }

  function TableFileName(dir: string, number: nat): string { Under(dir, MakeFileName(number, "sst")) }

  function TempFileName(dir: string, number: nat): string { Under(dir, MakeFileName(number, TempSuffix)) }

  function DescriptorFileName(dir: string, number: nat): string { Under(dir, "MANIFEST-" + Padded(number, 6)) }

  function OptionsFileName(dir: string, number: nat): string { Under(dir, OptionsPrefix + Padded(number, 6)) }

  function TempOptionsFileName(dir: string, number: nat): string {
    Under(dir, OptionsPrefix + Padded(number, 6) + "." + TempSuffix)
  }

  function MetaDatabaseName(dir: string, number: nat): string { Under(dir, "METADB-" + Digits(number)) }

  /** `prefix` is LOG in the database's own directory, and a flattened path and _LOG in a separate log directory. */
  function OldInfoLogFileName(dir: string, prefix: string,
                              ts: nat): string { Under(dir, prefix + ".old." + Digits(ts)) }

  // ---- numbers at the front of a string

  /** How many digits the string begins with. */
  function DigitRun(s: string): (k: nat)
    ensures k <= |s| && AllDigits(s[..k]) && (k < |s| ==> !IsDigit(s[k]))
  {
    if |s| == 0 || !IsDigit(s[0]) then 0 else 1 + DigitRun(s[1..])
  }

  /** The number at the front, if there is one and it fits, and what follows it. */
  function Consume(s: string): Option<(nat, string)> {
    var k := DigitRun(s);
    if k == 0 || Value(s[..k]) > MaxUint64 then None else Some((Value(s[..k]), s[k..]))
  }

  lemma {:induction false} ValueGrows(s: string, k: nat)
    requires AllDigits(s) && k <= |s|
    ensures Value(s[..k]) <= Value(s)
    decreases |s|
  {
    if k < |s| {
      var t := s[..|s| - 1];
      ValueGrows(t, k);
      assert t[..k] == s[..k];
    } else {
      assert s[..k] == s;
    }
  }

  lemma {:induction false} RunIs(s: string, k: nat)
    requires k <= |s| && AllDigits(s[..k]) && (k < |s| ==> !IsDigit(s[k]))
    ensures DigitRun(s) == k
  {
    if k > 0 {
      assert s[..k][0] == s[0];
      assert s[1..][..k - 1] == s[..k][1..];
      RunIs(s[1..], k - 1);
    }
  }

  method ConsumeDecimalNumber(s: string) returns (ok: bool, val: nat, rest: string)
    ensures ok <==> Consume(s).Some?
    ensures ok ==> Consume(s).value == (val, rest)
  {
    var v: nat, k: nat := 0, 0;
    while k < |s| && IsDigit(s[k])
      invariant k <= |s| && AllDigits(s[..k]) && v == Value(s[..k]) <= MaxUint64
    {
      var delta := DigitValue(s[k]);
      assert s[..k + 1][..k] == s[..k];
      if v > MaxUint64 / 10 || (v == MaxUint64 / 10 && delta > MaxUint64 % 10) {
        Overflows(s, k + 1);
        return false, 0, "";
      }
      v, k := v * 10 + delta, k + 1;
    }
    RunIs(s, k);
    ok, val, rest := k > 0, v, s[k..];
  }

  lemma Overflows(s: string, k: nat)
    requires k <= |s| && AllDigits(s[..k]) && Value(s[..k]) > MaxUint64
    ensures Consume(s).None?
  {
    LongerRun(s, k);
    var r := DigitRun(s);
    ValueGrows(s[..r], k);
    assert s[..r][..k] == s[..k];
  }

  lemma {:induction false} LongerRun(s: string, k: nat)
    requires k <= |s| && AllDigits(s[..k])
    ensures DigitRun(s) >= k
  {
    if k > 0 {
      assert s[..k][0] == s[0];
      assert s[1..][..k - 1] == s[..k][1..];
      LongerRun(s[1..], k - 1);
    }
  }

  /** Numerals are consumed whole. */
  lemma ConsumeNumeral(d: string, tail: string)
    requires AllDigits(d) && |d| > 0 && Value(d) <= MaxUint64 && (|tail| > 0 ==> !IsDigit(tail[0]))
    ensures Consume(d + tail) == Some((Value(d), tail))
  {
    var s := d + tail;
    assert s[..|d|] == d && s[|d|..] == tail;
    RunIs(s, |d|);
  }

  // ---- parsing

  datatype FileType =
    | LogFile | DBLockFile | TableFile | DescriptorFile | CurrentFile | TempFile | InfoLogFile | MetaDatabase
    | IdentityFile | OptionsFile | BlobFile

  datatype WalType = NotSet | AliveLog | ArchivedLog

  /** `Unset`: the name is accepted, but neither number nor type is set. */
  datatype Parsed = Fails | Parses(number: nat, kind: FileType, wal: WalType) | Unset

  predicate StartsWith(s: string, p: string) { p <= s }

  function WithoutPrefix(s: string, p: string): string
    requires StartsWith(s, p)
  {
    s[|p|..]
  }

  predicate EndsWith(s: string, p: string) { |p| <= |s| && s[|s| - |p|..] == p }

  /** A number and nothing else. */
  function ParseOnlyNumber(s: string, kind: FileType): Parsed {
    match Consume(s)
    case None => Fails
    case Some((n, rest)) => if rest == "" then Parses(n, kind, NotSet) else Fails
  }

  function ParseOptions(s: string): Parsed {
    var temp := EndsWith(s, "." + TempSuffix);
    match Consume(if temp then s[..|s| - |TempSuffix| - 1] else s)
    case None => Fails
    case Some((n, rest)) => Parses(n, if temp then TempFile else OptionsFile, NotSet)
  }

  function ParseInfoLog(s: string): Parsed {
    if s == "" || s == ".old" then Parses(0, InfoLogFile, NotSet)
    else if StartsWith(s, ".old.") then
      match Consume(WithoutPrefix(s, ".old."))
      case None => Fails
      case Some((n, rest)) => Parses(n, InfoLogFile, NotSet)
    else Unset
  }

  /** A number, a dot and one of the known suffixes; only logs are archived. */
  function ParseSuffixed(s: string, archived: bool): Parsed {
    match Consume(s)
    case None => Fails
    case Some((n, rest)) =>
      if |rest| <= 1 || rest[0] != '.' then Fails
      else
        var suffix := rest[1..];
        if suffix == "log" then Parses(n, LogFile, if archived then ArchivedLog else AliveLog)
        else if archived then Fails
        else if suffix == "sst" || suffix == "ldb" then Parses(n, TableFile, NotSet)
        else if suffix == "blob" then Parses(n, BlobFile, NotSet)
        else if suffix == TempSuffix then Parses(n, TempFile, NotSet)
        else Fails
  }

  function ParseOther(s: string): Parsed {
    if StartsWith(s, "MANIFEST-") then ParseOnlyNumber(WithoutPrefix(s, "MANIFEST-"), DescriptorFile)
    else if StartsWith(s, "METADB-") then ParseOnlyNumber(WithoutPrefix(s, "METADB-"), MetaDatabase)
    else if StartsWith(s, OptionsPrefix) then ParseOptions(WithoutPrefix(s, OptionsPrefix))
    else if StartsWith(s, ArchivalDir)
        then (if |s| <= |ArchivalDir| then Fails else ParseSuffixed(s[|ArchivalDir| + 1..], true))
    else ParseSuffixed(s, false)
  }

  function ParseFileName(fname: string, infoLogPrefix: string): Parsed {
    var s := if |fname| > 1 && fname[0] == '/' then fname[1..] else fname;
    if s == "IDENTITY" then Parses(0, IdentityFile, NotSet)
    else if s == "CURRENT" then Parses(0, CurrentFile, NotSet)
    else if s == "LOCK" then Parses(0, DBLockFile, NotSet)
    else if |infoLogPrefix| > 0 && StartsWith(s, infoLogPrefix) then ParseInfoLog(WithoutPrefix(s, infoLogPrefix))
    else ParseOther(s)
  }

  // ---- every made name parses back

  datatype Kind = Log | Archived | Table | Blob | Temp | Manifest | Options | TempOptions | MetaDb

  function SuffixOf(kind: Kind): string {
    match kind
    case Log => "log"
    case Table => "sst"
    case Blob => "blob"
    case _ => TempSuffix
  }

  /** The name below the directory. */
  function BaseName(kind: Kind, number: nat): string {
    match kind
    case Manifest => "MANIFEST-" + Padded(number, 6)
    case Options => OptionsPrefix + Padded(number, 6)
    case TempOptions => OptionsPrefix + Padded(number, 6) + "." + TempSuffix
    case MetaDb => "METADB-" + Digits(number)
    case Archived => ArchivalDir + "/" + MakeFileName(number, "log")
    case _ => MakeFileName(number, SuffixOf(kind))
  }

  function NameOf(kind: Kind, dir: string, number: nat): string {
    match kind
    case Log => LogFileName(dir, number)
    case Archived => ArchivedLogFileName(dir, number)
    case Table => TableFileName(dir, number)
    case Blob => BlobFileName(dir, number)
    case Temp => TempFileName(dir, number)
    case Manifest => DescriptorFileName(dir, number)
    case Options => OptionsFileName(dir, number)
    case TempOptions => TempOptionsFileName(dir, number)
    case MetaDb => MetaDatabaseName(dir, number)
  }

  function Meaning(kind: Kind, number: nat): Parsed {
    match kind
    case Log => Parses(number, LogFile, AliveLog)
    case Archived => Parses(number, LogFile, ArchivedLog)
    case Table => Parses(number, TableFile, NotSet)
    case Blob => Parses(number, BlobFile, NotSet)
    case Temp => Parses(number, TempFile, NotSet)
    case Manifest => Parses(number, DescriptorFile, NotSet)
    case Options => Parses(number, OptionsFile, NotSet)
    case TempOptions => Parses(number, TempFile, NotSet)
    case MetaDb => Parses(number, MetaDatabase, NotSet)
  }

  lemma NameSplits(kind: Kind, dir: string, number: nat)
    ensures NameOf(kind, dir, number) == dir + "/" + BaseName(kind, number)
  {
    if kind.Archived? {
      assert dir + "/" + ArchivalDir + "/" + MakeFileName(number, "log") ==
          dir + "/" + (ArchivalDir + "/" + MakeFileName(number, "log"));
    }
  }

  lemma SuffixedBack(number: nat, suffix: string)
    requires number <= MaxUint64 && |suffix| > 0
    ensures Consume(MakeFileName(number, suffix)) == Some((number, "." + suffix))
  {
    ValueOfPadded(number, 6);
    ConsumeNumeral(Padded(number, 6), "." + suffix);
    assert Padded(number, 6) + "." + suffix == Padded(number, 6) + ("." + suffix);
  }

  lemma NumeralBack(d: string)
    requires AllDigits(d) && |d| > 0 && Value(d) <= MaxUint64
    ensures Consume(d) == Some((Value(d), ""))
  {
    ConsumeNumeral(d, "");
    assert d + "" == d;
  }

  /** A name that begins with a digit is parsed as number and suffix. */
  lemma DigitFirst(s: string)
    requires |s| > 0 && IsDigit(s[0])
    ensures ParseOther(s) == ParseSuffixed(s, false) && s != "IDENTITY" && s != "CURRENT" && s != "LOCK"
  {}

  lemma PlainBack(kind: Kind, number: nat)
    requires number <= MaxUint64 && (kind.Log? || kind.Table? || kind.Blob? || kind.Temp?)
    ensures ParseOther(BaseName(kind, number)) == Meaning(kind, number)
    ensures BaseName(kind, number) != "IDENTITY" && BaseName(kind, number) != "CURRENT"
    ensures BaseName(kind, number) != "LOCK"
  {
    var suffix := SuffixOf(kind);
    SuffixedBack(number, suffix);
    DigitFirst(BaseName(kind, number));
    assert ("." + suffix)[1..] == suffix;
  }

  lemma ArchivedBack(number: nat)
    requires number <= MaxUint64
    ensures ParseOther(BaseName(Archived, number)) == Meaning(Archived, number)
  {
    var s := BaseName(Archived, number);
    SuffixedBack(number, "log");
    assert s[..|ArchivalDir|] == ArchivalDir;
    assert s[0] == 'a';
    assert s[|ArchivalDir| + 1..] == MakeFileName(number, "log");
    assert ".log"[1..] == "log";
  }

  lemma ManifestBack(number: nat)
    requires number <= MaxUint64
    ensures ParseOther(BaseName(Manifest, number)) == Meaning(Manifest, number)
  {
    var s := BaseName(Manifest, number);
    ValueOfPadded(number, 6);
    NumeralBack(Padded(number, 6));
    assert s[|"MANIFEST-"|..] == Padded(number, 6);
  }

  lemma MetaDbBack(number: nat)
    requires number <= MaxUint64
    ensures ParseOther(BaseName(MetaDb, number)) == Meaning(MetaDb, number)
  {
    var s := BaseName(MetaDb, number);
    ValueOfDigits(number);
    NumeralBack(Digits(number));
    assert s[1] == 'E' && "MANIFEST-"[1] == 'A';
    assert s[|"METADB-"|..] == Digits(number);
  }

  lemma NoTempSuffix(d: string)
    requires AllDigits(d)
    ensures !EndsWith(d, "." + TempSuffix)
  {
    if |d| >= 6 { assert d[|d| - 6..][0] == d[|d| - 6] && IsDigit(d[|d| - 6]); }
    assert ("." + TempSuffix)[0] == '.';
  }

  lemma OptionsBack(number: nat)
    requires number <= MaxUint64
    ensures ParseOther(BaseName(Options, number)) == Meaning(Options, number)
  {
    var s, d := BaseName(Options, number), Padded(number, 6);
    ValueOfPadded(number, 6);
    NumeralBack(d);
    NoTempSuffix(d);
    assert s[0] == 'O' && s[|OptionsPrefix|..] == d;
  }

  lemma TempOptionsBack(number: nat)
    requires number <= MaxUint64
    ensures ParseOther(BaseName(TempOptions, number)) == Meaning(TempOptions, number)
  {
    var s, d, e := BaseName(TempOptions, number), Padded(number, 6), "." + TempSuffix;
    ValueOfPadded(number, 6);
    NumeralBack(d);
    assert s == OptionsPrefix + (d + e) && s[0] == 'O';
    assert s[|OptionsPrefix|..] == d + e;
    assert (d + e)[|d + e| - |e|..] == e && (d + e)[..|d + e| - |e|] == d;
  }

  lemma BaseBack(kind: Kind, number: nat)
    requires number <= MaxUint64
    ensures ParseOther(BaseName(kind, number)) == Meaning(kind, number)
    ensures var s := BaseName(kind, number); |s| > 0 && s[0] != '/' && s != "IDENTITY" && s != "CURRENT" && s != "LOCK"
  {
    match kind
    case Archived => ArchivedBack(number);
    case Manifest => ManifestBack(number);
    case MetaDb => MetaDbBack(number);
    case Options => OptionsBack(number);
    case TempOptions => TempOptionsBack(number);
    case _ => PlainBack(kind, number);
  }

  lemma ParsesBackUnless(kind: Kind, dir: string, number: nat, infoLogPrefix: string)
    requires number <= MaxUint64 && (infoLogPrefix == "" || !StartsWith(BaseName(kind, number), infoLogPrefix))
    ensures dir <= NameOf(kind, dir, number)
    ensures ParseFileName(NameOf(kind, dir, number)[|dir|..], infoLogPrefix) == Meaning(kind, number)
    ensures ParseFileName(NameOf(kind, dir, number)[|dir| + 1..], infoLogPrefix) == Meaning(kind, number)
  {
    var s := BaseName(kind, number);
    NameSplits(kind, dir, number);
    assert NameOf(kind, dir, number)[|dir|..] == "/" + s;
    assert NameOf(kind, dir, number)[|dir| + 1..] == s && ("/" + s)[1..] == s;
    BaseBack(kind, number);
  }

  ghost predicate NoCapitalL(s: string) { forall i :: 0 <= i < |s| ==> s[i] != 'L' }

  lemma NoLInDigits(d: string)
    requires AllDigits(d)
    ensures NoCapitalL(d)
  {
    forall i | 0 <= i < |d| ensures d[i] != 'L' { assert IsDigit(d[i]); }
  }

  lemma NoLInNames(kind: Kind, number: nat)
    ensures NoCapitalL(BaseName(kind, number))
  {
    NoLInDigits(Padded(number, 6));
    NoLInDigits(Digits(number));
    assert NoCapitalL("MANIFEST-") && NoCapitalL(OptionsPrefix) && NoCapitalL("METADB-") && NoCapitalL(ArchivalDir);
    assert NoCapitalL(SuffixOf(kind)) && NoCapitalL("log") && NoCapitalL(TempSuffix);
  }

  /** The prefixes that the program builds for info logs: LOG, or a flattened path and _LOG; or none. */
  predicate InfoLogPrefix(p: string) { p == "" || EndsWith(p, "LOG") }

  predicate Allowed(c: char) {
    'a' <= c <= 'z' || '0' <= c <= '9' || 'A' <= c <= 'Z' || c == '-' || c == '.' || c == '_'
  }

  /** A path with every other character replaced by an underscore, and dropped if it comes first. */
  function Flatten(path: string): string {
    if |path| == 0 then ""
    else
      var c := path[|path| - 1];
      Flatten(path[..|path| - 1]) + if Allowed(c) then [c] else if |path| > 1 then "_" else ""
  }

  lemma {:induction false} FlattenGrows(path: string, i: nat)
    requires i <= |path|
    ensures Flatten(path[..i]) <= Flatten(path)
    decreases |path|
  {
    if i < |path| {
      FlattenGrows(path[..|path| - 1], i);
      assert path[..|path| - 1][..i] == path[..i];
    } else {
      assert path[..i] == path;
    }
  }

  /** As much of the flattened path as there is room for, and _LOG. */
  method GetInfoLogPrefix(path: string, len: nat) returns (dest: string)
    requires len >= 5
    ensures dest == Flatten(path)[..Min(|Flatten(path)|, len - 5)] + "_LOG" && |dest| < len && InfoLogPrefix(dest)
  {
    dest := "";
    var i := 0;
    while i < |path| && |dest| < len - 5
      invariant 0 <= i <= |path| && dest == Flatten(path[..i]) && |dest| <= len - 5
    {
      assert path[..i + 1][..i] == path[..i];
      if Allowed(path[i]) {
        dest := dest + [path[i]];
      } else if i > 0 {
        dest := dest + "_";
      }
      i := i + 1;
    }
    FlattenGrows(path, i);
    assert path[..|path|] == path;
    dest := dest + "_LOG";
    assert dest[|dest| - 3..] == "LOG";
  }

  lemma NotAnInfoLog(kind: Kind, number: nat, p: string)
    requires EndsWith(p, "LOG")
    ensures !StartsWith(BaseName(kind, number), p)
  {
    NoLInNames(kind, number);
    var s := BaseName(kind, number);
    assert p[|p| - 3..][0] == 'L';
    assert p[|p| - 3] == 'L';
    if |p| <= |s| { assert s[|p| - 3] != 'L'; }
  }

  /**
   Every made name parses back to its number and type, below its directory with or without the separator, for every
   64-bit number and every prefix that info logs can have.
   */
  lemma ParsesBack(kind: Kind, dir: string, number: nat, infoLogPrefix: string)
    requires number <= MaxUint64 && InfoLogPrefix(infoLogPrefix)
    ensures dir <= NameOf(kind, dir, number)
    ensures ParseFileName(NameOf(kind, dir, number)[|dir|..], infoLogPrefix) == Meaning(kind, number)
    ensures ParseFileName(NameOf(kind, dir, number)[|dir| + 1..], infoLogPrefix) == Meaning(kind, number)
  {
    if infoLogPrefix != "" { NotAnInfoLog(kind, number, infoLogPrefix); }
    ParsesBackUnless(kind, dir, number, infoLogPrefix);
  }

  lemma OldSuffixBack(p: string, ts: nat)
    requires ts <= MaxUint64 && |p| > 0
    ensures ParseInfoLog(".old." + Digits(ts)) == Parses(ts, InfoLogFile, NotSet)
    ensures var s := p + ".old." + Digits(ts);
      StartsWith(s, p) && WithoutPrefix(s, p) == ".old." + Digits(ts) && s[|p|] == '.' && |s| > |p| + 5
  {
    var s, rest := p + ".old." + Digits(ts), ".old." + Digits(ts);
    assert s == p + rest && s[..|p|] == p;
    assert rest[..5] == ".old." && rest[5..] == Digits(ts);
    ValueOfDigits(ts);
    NumeralBack(Digits(ts));
  }

  lemma NoDotInFixedNames(s: string, i: nat)
    requires i < |s| && s[i] == '.'
    ensures s != "IDENTITY" && s != "CURRENT" && s != "LOCK"
  {}

  /** Old info logs parse back to their time, under any prefix. */
  lemma OldInfoLogBack(dir: string, p: string, ts: nat)
    requires ts <= MaxUint64 && |p| > 0
    ensures ParseFileName(OldInfoLogFileName(dir, p, ts)[|dir|..], p) == Parses(ts, InfoLogFile, NotSet)
  {
    var s := p + ".old." + Digits(ts);
    assert OldInfoLogFileName(dir, p, ts)[|dir|..] == "/" + s && ("/" + s)[1..] == s;
    OldSuffixBack(p, ts);
    NoDotInFixedNames(s, |p|);
  }

  /** The name without its leading separator. */
  function Bare(fname: string): string { if |fname| > 1 && fname[0] == '/' then fname[1..] else fname }

  /**
   A name is accepted without number or type exactly if it begins with the info log prefix and goes on neither with
   nothing, nor with .old, nor with .old. and more, and is none of the fixed names.
   */
  lemma AcceptedUnset(fname: string, p: string)
    ensures ParseFileName(fname, p) == Unset <==>
      var s := Bare(fname);
      && s != "IDENTITY" && s != "CURRENT" && s != "LOCK" && |p| > 0 && StartsWith(s, p)
      && WithoutPrefix(s, p) != "" && WithoutPrefix(s, p) != ".old" && !StartsWith(WithoutPrefix(s, p), ".old.")
  {}

  lemma LoggerIsUnset()
    ensures ParseFileName("LOGGER", "LOG") == Unset
  {
    assert "LOGGER"[..3] == "LOG" && "LOGGER"[3..] == "GER";
    AcceptedUnset("LOGGER", "LOG");
  }

  // ---- the number in a table file's name

  function Pow10(k: nat): nat { if k == 0 then 1 else 10 * Pow10(k - 1) }

  lemma {:induction false} ValueFront(s: string)
    requires AllDigits(s) && |s| > 0
    ensures Value(s) == DigitValue(s[0]) * Pow10(|s| - 1) + Value(s[1..])
    decreases |s|
  {
    var n := |s| - 1;
    if n == 0 {
      assert s[..0] == "" && s[1..] == "";
    } else {
      ValueFront(s[..n]);
      assert s[..n][1..] == s[1..][..n - 1];
      assert 10 * (DigitValue(s[0]) * Pow10(n - 1)) == DigitValue(s[0]) * Pow10(n);
    }
  }

  /** The index of the last dot, or -1. */
  function LastDot(s: string): (i: int)
    ensures -1 <= i < |s| && (i >= 0 ==> s[i] == '.') && forall j :: i < j < |s| ==> s[j] != '.'
  {
    if |s| == 0 then -1 else if s[|s| - 1] == '.' then |s| - 1 else LastDot(s[..|s| - 1])
  }

  /** Where the digits that end at `e` begin. */
  function RunStart(s: string, e: nat): (b: nat)
    requires e <= |s|
    ensures b <= e && AllDigits(s[b..e]) && (b > 0 ==> !IsDigit(s[b - 1]))
  {
    if e == 0 || !IsDigit(s[e - 1]) then e
    else
      var b := RunStart(s, e - 1);
      assert s[b..e] == s[b..e - 1] + [s[e - 1]];
      b
  }

  /** The number before the last dot. */
  function TableNumber(s: string): nat {
    var e := LastDot(s);
    if e < 0 then 0 else Value(s[RunStart(s, e)..e])
  }

  lemma AddsUp(n: nat, b: nat, d: nat)
    ensures (n % Two64 + d * (b % Two64)) % Two64 == (n + d * b) % Two64
  {
    var x, y := n / Two64, b / Two64;
    assert b == Two64 * y + b % Two64;
    assert d * b == Two64 * (d * y) + d * (b % Two64);
    var r := n % Two64 + d * (b % Two64);
    assert n + d * b == Two64 * (x + d * y) + r;
    Wraps(x + d * y, r);
  }

  lemma Wraps(k: nat, r: nat)
    ensures (Two64 * k + r) % Two64 == r % Two64
  {}

  lemma {:induction false} RunStartDown(s: string, e: nat, p: nat)
    requires p <= e <= |s| && AllDigits(s[p..e])
    ensures RunStart(s, e) == RunStart(s, p)
  {
    forall i | p <= i < e ensures IsDigit(s[i]) { assert s[p..e][i - p] == s[i]; }
    RunStartDownTo(s, e, p);
  }

  lemma {:induction false} RunStartDownTo(s: string, e: nat, p: nat)
    requires p <= e <= |s| && forall i :: p <= i < e ==> IsDigit(s[i])
    ensures RunStart(s, e) == RunStart(s, p)
    decreases e - p
  {
    if p < e { RunStartDownTo(s, e - 1, p); }
  }

  /** One more digit to the left. */
  lemma DigitToTheLeft(name: string, pos: nat, e: nat)
    requires 0 < pos <= e <= |name| && IsDigit(name[pos - 1]) && AllDigits(name[pos..e])
    ensures AllDigits(name[pos - 1..e])
    ensures Value(name[pos - 1..e]) == Value(name[pos..e]) + DigitValue(name[pos - 1]) * Pow10(e - pos)
  {
    var s := name[pos - 1..e];
    assert s[1..] == name[pos..e] && s[0] == name[pos - 1];
    assert s == [name[pos - 1]] + name[pos..e];
    ValueFront(s);
  }

  /** Digit by digit from the dot to the left; sums and powers are 64-bit and wrap around. */
  method TableFileNameToNumber(name: string) returns (number: nat)
    ensures number == TableNumber(name) % Two64
  {
    number := 0;
    var base: nat := 1;
    var e := LastDot(name);
    if e < 0 {
      return;
    }
    var pos: nat := e;
    assert name[e..e] == "";
    while pos > 0 && IsDigit(name[pos - 1])
      invariant pos <= e && AllDigits(name[pos..e])
      invariant number == Value(name[pos..e]) % Two64 && base == Pow10(e - pos) % Two64
    {
      DigitToTheLeft(name, pos, e);
      var d := DigitValue(name[pos - 1]);
      AddsUp(Value(name[pos..e]), Pow10(e - pos), d);
      AddsUp(0, Pow10(e - pos), 10);
      number, base, pos := (number + d * base) % Two64, base * 10 % Two64, pos - 1;
    }
    RunStartDown(name, e, pos);
  }

  lemma LastDotOfTable(p: string, d: string)
    requires AllDigits(d)
    ensures LastDot(p + d + ".sst") == |p + d|
  {
    var s := p + d + ".sst";
    assert s[|p + d|] == '.' && s[|p + d| + 1] == 's' && s[|p + d| + 2] == 's' && s[|p + d| + 3] == 't';
  }

  /** The number of a table file is read back under any directory. */
  lemma TableNumberBack(dir: string, number: nat)
    requires number <= MaxUint64
    ensures TableNumber(TableFileName(dir, number)) % Two64 == number
  {
    TableNameIs(dir, number);
    TableNumberIs(dir + "/", Padded(number, 6));
    ValueOfPadded(number, 6);
    SmallStays(number);
  }

  lemma SmallStays(number: nat)
    requires number <= MaxUint64
    ensures number % Two64 == number
  {}

  lemma TableNumberIs(p: string, d: string)
    requires AllDigits(d) && |p| > 0 && p[|p| - 1] == '/'
    ensures TableNumber(p + d + ".sst") == Value(d)
  {
    LastDotOfTable(p, d);
    NumberBeforeDot(p, d);
  }

  lemma TableNameIs(dir: string, number: nat)
    ensures TableFileName(dir, number) == dir + "/" + Padded(number, 6) + ".sst"
  {
    var d := Padded(number, 6);
    assert dir + "/" + (d + "." + "sst") == dir + "/" + d + ".sst";
  }

  lemma NumberBeforeDot(p: string, d: string)
    requires AllDigits(d) && |p| > 0 && p[|p| - 1] == '/'
    ensures var s := p + d + ".sst"; RunStart(s, |p + d|) == |p| && s[|p|..|p + d|] == d
  {
    var s, e := p + d + ".sst", |p + d|;
    assert s[|p|..e] == d;
    RunStartDown(s, e, |p|);
    assert s[|p| - 1] == '/';
  }

  // ---- paths

  ghost predicate NoAdjacent(s: string) {
    forall i :: 0 < i < |s| ==> !(s[i - 1] == '/' && s[i] == '/')
  }

  function Normalize(s: string): string {
    if |s| == 0 then ""
    else
      var r := Normalize(s[..|s| - 1]);
      var c := s[|s| - 1];
      if |r| > 0 && c == '/' && r[|r| - 1] == '/' then r else r + [c]
  }

  method NormalizePath(path: string) returns (dst: string)
    ensures dst == Normalize(path)
  {
    dst := "";
    for i := 0 to |path|
      invariant dst == Normalize(path[..i])
    {
      var c := path[i];
      assert path[..i + 1][..i] == path[..i];
      if |dst| > 0 && c == '/' && dst[|dst| - 1] == '/' {
        continue;
      }
      dst := dst + [c];
    }
    assert path[..|path|] == path;
  }

  /** The path's components, in order: what lies between separators, where several in a row are one. */
  function Components(s: string): (cs: seq<string>)
    ensures |cs| > 0
  {
    if |s| == 0 then [""]
    else
      var cs := Components(s[..|s| - 1]);
      var c := s[|s| - 1];
      if c != '/' then cs[..|cs| - 1] + [cs[|cs| - 1] + [c]]
      else if |s| > 1 && s[|s| - 2] == '/' then cs
      else cs + [""]
  }

  lemma {:induction false} NormalizeEnds(s: string)
    ensures |Normalize(s)| > 0 <==> |s| > 0
    ensures |s| > 0 ==> Normalize(s)[|Normalize(s)| - 1] == s[|s| - 1]
  {
    if |s| > 0 { NormalizeEnds(s[..|s| - 1]); }
  }

  predicate EndsInSlash(s: string) { |s| > 0 && s[|s| - 1] == '/' }

  /** What one more character adds depends on the components so far and on whether the path ended in a separator. */
  lemma ComponentsMore(r: string, front: string, c: char)
    requires Components(r) == Components(front) && (EndsInSlash(r) <==> EndsInSlash(front))
    ensures Components(r + [c]) == Components(front + [c])
  {
    assert (r + [c])[..|r|] == r && (front + [c])[..|front|] == front;
  }

  lemma ComponentsSkip(front: string)
    requires EndsInSlash(front)
    ensures Components(front + ['/']) == Components(front)
  {
    assert (front + ['/'])[..|front|] == front;
  }

  lemma NormalizeMore(front: string, c: char)
    ensures Normalize(front + [c]) ==
      if EndsInSlash(front) && c == '/' then Normalize(front) else Normalize(front) + [c]
  {
    assert (front + [c])[..|front|] == front;
    NormalizeEnds(front);
  }

  lemma {:induction false} NormalizeSame(s: string)
    ensures Components(Normalize(s)) == Components(s)
  {
    if |s| > 0 {
      var front, c := s[..|s| - 1], s[|s| - 1];
      assert s == front + [c];
      NormalizeSame(front);
      NormalizeMore(front, c);
      if EndsInSlash(front) && c == '/' {
        ComponentsSkip(front);
      } else {
        NormalizeEnds(front);
        ComponentsMore(Normalize(front), front, c);
      }
    }
  }

  /** A normalized path has no two separators in a row, and the same components. */
  lemma {:induction false} NormalizeOk(s: string)
    ensures NoAdjacent(Normalize(s)) && Components(Normalize(s)) == Components(s)
  {
    if |s| > 0 { NormalizeOk(s[..|s| - 1]); }
    NormalizeSame(s);
  }

  /** Nothing is done to a path that has no two separators in a row. */
  lemma {:induction false} NormalizeFixed(s: string)
    requires NoAdjacent(s)
    ensures Normalize(s) == s
  {
    if |s| > 0 {
      var front := s[..|s| - 1];
      NormalizeFixed(front);
      assert s == front + [s[|s| - 1]];
      assert |front| > 0 ==> front[|front| - 1] == s[|s| - 2];
    }
  }

  lemma NormalizeTwice(s: string)
    ensures Normalize(Normalize(s)) == Normalize(s)
  {
    NormalizeOk(s);
    NormalizeFixed(Normalize(s));
  }
}
