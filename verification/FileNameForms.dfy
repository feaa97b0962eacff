/** Which names the parser of file names accepts, and as what: the converse of parsing made names back. */
module FileNameForms {
  import opened Basics
  import opened Decimal
  import opened FileName

  // ---- the names without a number

  function CurrentFileName(dir: string): string { Under(dir, "CURRENT") }

  function LockFileName(dir: string): string { Under(dir, "LOCK") }

  function IdentityFileName(dir: string): string { Under(dir, "IDENTITY") }

  /** They parse back, whatever the info log prefix is. */
  lemma FixedBack(prefix: string)
    ensures ParseFileName(CurrentFileName(""), prefix) == Parses(0, CurrentFile, NotSet)
    ensures ParseFileName(LockFileName(""), prefix) == Parses(0, DBLockFile, NotSet)
    ensures ParseFileName(IdentityFileName(""), prefix) == Parses(0, IdentityFile, NotSet)
  {
    assert CurrentFileName("")[1..] == "CURRENT" && LockFileName("")[1..] == "LOCK"
        && IdentityFileName("")[1..] == "IDENTITY";
  }

  // ---- numerals

  /** The digits stand for a number that fits. */
  predicate Numeral(d: string, n: nat) { |d| > 0 && AllDigits(d) && Value(d) == n <= MaxUint64 }

  /** The string is a numeral and something that does not go on with a digit. */
  ghost predicate Begins(s: string, n: nat, rest: string) {
    exists d :: Numeral(d, n) && s == d + rest && (rest == "" || !IsDigit(rest[0]))
  }

  ghost predicate BeginsWithNumber(s: string, n: nat) { exists rest :: Begins(s, n, rest) }

  lemma ConsumeIs(s: string, n: nat, rest: string)
    ensures Consume(s) == Some((n, rest)) <==> Begins(s, n, rest)
  {
    if Consume(s) == Some((n, rest)) {
      var k := DigitRun(s);
      assert s == s[..k] + s[k..] && Numeral(s[..k], n);
    }
    if Begins(s, n, rest) {
      var d :| Numeral(d, n) && s == d + rest && (rest == "" || !IsDigit(rest[0]));
      ConsumeNumeral(d, rest);
    }
  }

  // ---- the forms of names

  /** A number with one of the known suffixes; in the archive only logs. */
  ghost predicate Suffixed(s: string, archived: bool, n: nat, kind: FileType, wal: WalType) {
    || (kind.LogFile? && wal == (if archived then ArchivedLog else AliveLog) && Begins(s, n, ".log"))
    || (!archived && wal.NotSet? && kind.TableFile? && (Begins(s, n, ".sst") || Begins(s, n, ".ldb")))
    || (!archived && wal.NotSet? && kind.BlobFile? && Begins(s, n, ".blob"))
    || (!archived && wal.NotSet? && kind.TempFile? && Begins(s, n, ".dbtmp"))
  }

  lemma SuffixedIs(s: string, archived: bool, n: nat, kind: FileType, wal: WalType)
    ensures ParseSuffixed(s, archived) == Parses(n, kind, wal) <==> Suffixed(s, archived, n, kind, wal)
  {
    ConsumeIs(s, n, ".log");
    ConsumeIs(s, n, ".sst");
    ConsumeIs(s, n, ".ldb");
    ConsumeIs(s, n, ".blob");
    ConsumeIs(s, n, ".dbtmp");
    assert "." + "log" == ".log" && "." + "sst" == ".sst" && "." + "ldb" == ".ldb" && "." + "blob" == ".blob";
    assert "." + "dbtmp" == ".dbtmp";
    match Consume(s)
    case None =>
    case Some((m, rest)) =>
      DotAnd(rest, "log");
      DotAnd(rest, "sst");
      DotAnd(rest, "ldb");
      DotAnd(rest, "blob");
      DotAnd(rest, "dbtmp");
  }

  lemma DotAnd(rest: string, suffix: string)
    ensures rest == "." + suffix <==> |rest| > 0 && rest[0] == '.' && rest[1..] == suffix
  {
    if |rest| > 0 { assert rest == [rest[0]] + rest[1..]; }
  }

  /** A prefix, a number and nothing else. */
  ghost predicate Numbered(s: string, prefix: string, n: nat) { StartsWith(s, prefix) && Begins(s[|prefix|..], n, "") }

  /** Options: a number and anything behind it, or a temporary file with that and the suffix of such. */
  ghost predicate Optional(s: string, n: nat, kind: FileType) {
    if EndsWith(s, ".dbtmp") then kind.TempFile? && BeginsWithNumber(s[..|s| - 6], n)
    else kind.OptionsFile? && BeginsWithNumber(s, n)
  }

  lemma OptionalIs(s: string, n: nat, kind: FileType, wal: WalType)
    ensures ParseOptions(s) == Parses(n, kind, wal) <==> wal.NotSet? && Optional(s, n, kind)
  {
    var temp := EndsWith(s, ".dbtmp");
    var t := if temp then s[..|s| - 6] else s;
    assert "." + TempSuffix == ".dbtmp";
    assert Consume(t).Some? && Consume(t).value.0 == n <==> BeginsWithNumber(t, n) by {
      if Consume(t).Some? { ConsumeIs(t, Consume(t).value.0, Consume(t).value.1); }
      if rest :| Begins(t, n, rest) { ConsumeIs(t, n, rest); }
    }
  }

  /** Names that do not begin with the info log prefix. */
  ghost predicate Spells(s: string, n: nat, kind: FileType, wal: WalType) {
    if StartsWith(s, "MANIFEST-") then kind.DescriptorFile? && wal.NotSet? && Numbered(s, "MANIFEST-", n)
    else if StartsWith(s, "METADB-") then kind.MetaDatabase? && wal.NotSet? && Numbered(s, "METADB-", n)
    else if StartsWith(s, "OPTIONS-") then wal.NotSet? && Optional(s[8..], n, kind)
    else if StartsWith(s, "archive") then |s| > 7 && Suffixed(s[8..], true, n, kind, wal)
    else Suffixed(s, false, n, kind, wal)
  }

  lemma NumberedIs(s: string, prefix: string, n: nat, kind: FileType, kind': FileType, wal: WalType)
    requires StartsWith(s, prefix)
    ensures ParseOnlyNumber(WithoutPrefix(s, prefix), kind) == Parses(n, kind', wal) <==>
      kind' == kind && wal.NotSet? && Numbered(s, prefix, n)
  {
    ConsumeIs(s[|prefix|..], n, "");
  }

  lemma SpellsIs(s: string, n: nat, kind: FileType, wal: WalType)
    ensures ParseOther(s) == Parses(n, kind, wal) <==> Spells(s, n, kind, wal)
  {
    if StartsWith(s, "MANIFEST-") {
      NumberedIs(s, "MANIFEST-", n, DescriptorFile, kind, wal);
    } else if StartsWith(s, "METADB-") {
      NumberedIs(s, "METADB-", n, MetaDatabase, kind, wal);
    } else if StartsWith(s, "OPTIONS-") {
      OptionalIs(s[8..], n, kind, wal);
    } else if StartsWith(s, "archive") {
      if |s| > 7 { SuffixedIs(s[8..], true, n, kind, wal); }
    } else {
      SuffixedIs(s, false, n, kind, wal);
    }
  }

  /** Info logs: the prefix, the prefix and .old, or that with a dot, a number and anything behind it. */
  ghost predicate Logs(s: string, n: nat) {
    (n == 0 && (s == "" || s == ".old"))
    || (s != "" && s != ".old" && StartsWith(s, ".old.") && BeginsWithNumber(s[5..], n))
  }

  lemma LogsIs(s: string, n: nat, kind: FileType, wal: WalType)
    ensures ParseInfoLog(s) == Parses(n, kind, wal) <==> kind.InfoLogFile? && wal.NotSet? && Logs(s, n)
  {
    if s != "" && s != ".old" && StartsWith(s, ".old.") {
      var t := s[5..];
      assert Consume(t).Some? && Consume(t).value.0 == n <==> BeginsWithNumber(t, n) by {
        if Consume(t).Some? { ConsumeIs(t, Consume(t).value.0, Consume(t).value.1); }
        if rest :| Begins(t, n, rest) { ConsumeIs(t, n, rest); }
      }
    }
  }

  predicate Fixed(s: string) { s == "IDENTITY" || s == "CURRENT" || s == "LOCK" }

  /** The name without a leading separator. */
  function Bare(fname: string): string { if |fname| > 1 && fname[0] == '/' then fname[1..] else fname }

  /**
   A name is parsed to a number and types if and only if it has one of the known forms: a fixed name, an info log under
   the prefix, or else a numbered name.
   */
  lemma ParsesExactly(fname: string, prefix: string, n: nat, kind: FileType, wal: WalType)
    ensures ParseFileName(fname, prefix) == Parses(n, kind, wal) <==>
      var s := Bare(fname);
      if Fixed(s) then
        n == 0 && wal.NotSet?
            && kind == if s == "IDENTITY" then IdentityFile else if s == "CURRENT" then CurrentFile else DBLockFile
      else if |prefix| > 0 && StartsWith(s, prefix) then
        kind.InfoLogFile? && wal.NotSet? && Logs(s[|prefix|..], n)
      else Spells(s, n, kind, wal)
  {
    var s := Bare(fname);
    if !Fixed(s) {
      if |prefix| > 0 && StartsWith(s, prefix) { LogsIs(s[|prefix|..], n, kind, wal); }
      else { SpellsIs(s, n, kind, wal); }
    }
  }
}
