/** Names and version numbers of metadata files. */
module MetadataFile {

  import opened Prelude
  import opened Text
  import opened Names
  import opened Layout

  // ---------------------------------------------------------------------------
  // Version numbers
  // ---------------------------------------------------------------------------

  function Digit(d: nat): char
    requires d < 10
  {
    '0' + d as char
  }

  predicate IsDigit(c: char) {
    '0' <= c <= '9'
  }

  function Decimal(n: nat): (text: string)
    ensures |text| >= 1 && forall c :: c in text ==> IsDigit(c)
  {
    if n < 10 then [Digit(n)] else Decimal(n / 10) + [Digit(n % 10)]
  }

  /** `{:05}`. */
  function Padded(n: nat): (text: string)
    ensures |text| >= 1 && forall c :: c in text ==> IsDigit(c)
  {
    var digits := Decimal(n);
    Zeros(if |digits| < 5 then 5 - |digits| else 0) + digits
  }

  function Zeros(n: nat): (text: string)
    ensures |text| == n && forall c :: c in text ==> c == '0'
  {
    if n == 0 then "" else "0" + Zeros(n - 1)
  }

  function Value(text: string): nat
    requires forall c :: c in text ==> IsDigit(c)
  {
    if text == "" then 0
    else
      var last := text[|text| - 1];
      assert IsDigit(last);
      Value(text[..|text| - 1]) * 10 + (last as int - '0' as int)
  }

  const MAX_I32 := 0x7FFF_FFFF

  /** `parse::<i32>()` on text without a minus sign. */
  function ParseVersion(text: string): Option<nat> {
    var digits := if text != "" && text[0] == '+' then text[1..] else text;
    if digits != "" && (forall c :: c in digits ==> IsDigit(c)) && Value(digits) <= MAX_I32
    then Some(Value(digits)) else None
  }

  lemma {:induction false} ValueOfDecimal(n: nat)
    ensures Value(Decimal(n)) == n
  {
    if n >= 10 {
      ValueOfDecimal(n / 10);
      var text := Decimal(n);
      assert text[..|text| - 1] == Decimal(n / 10);
    }
  }

  lemma {:induction false} ValueIgnoresZeros(k: nat, digits: string)
    requires forall c :: c in digits ==> IsDigit(c)
    ensures Value(Zeros(k) + digits) == Value(digits)
    decreases |digits|, k
  {
    if digits == "" {
      assert Zeros(k) + digits == Zeros(k);
      ValueOfZeros(k);
    } else {
      var text := Zeros(k) + digits;
      assert text[..|text| - 1] == Zeros(k) + digits[..|digits| - 1];
      ValueIgnoresZeros(k, digits[..|digits| - 1]);
    }
  }

  lemma {:induction false} ValueOfZeros(k: nat)
    ensures Value(Zeros(k)) == 0
  {
    if k > 0 {
      ZerosSnoc(k - 1);
      assert Zeros(k)[..k - 1] == Zeros(k - 1);
      ValueOfZeros(k - 1);
    }
  }

  lemma {:induction false} ZerosSnoc(k: nat)
    ensures Zeros(k + 1) == Zeros(k) + "0"
  {
    if k > 0 {
      ZerosSnoc(k - 1);
    }
  }

  lemma ParseOfPadded(n: nat)
    requires n <= MAX_I32
    ensures ParseVersion(Padded(n)) == Some(n)
  {
    var digits := Decimal(n);
    ValueOfDecimal(n);
    ValueIgnoresZeros(if |digits| < 5 then 5 - |digits| else 0, digits);
    assert Padded(n)[0] in Padded(n);
  }

  // ---------------------------------------------------------------------------
  // The file name
  // ---------------------------------------------------------------------------

  function FileName(version: nat, uuid: string, suffix: string): string {
    Padded(version) + "-" + uuid + suffix + ".metadata.json"
  }

  function MetadataPath(location: string, version: nat, uuid: string, suffix: string): string {
    location + "/metadata/" + FileName(version, uuid, suffix)
  }

  /** `rsplit('/').next()`. */
  function LastSegment(path: string): string {
    var parts := Split(path, '/');
    parts[|parts| - 1]
  }

  /** `MetadataLocation::from_str(..).is_ok()`, which belongs to another crate. */
  type LocationReader = string -> bool

  /** A new metadata file for a table; one that does not read as a metadata location is an error. */
  function TableFile(conforms: LocationReader, location: string, version: nat, uuid: string,
                     suffix: string): Option<string> {
    var path := MetadataPath(location, version, uuid, suffix);
    if conforms(path) then Some(path) else None
  }

  /** The number of the next file; the checked sum stands for the `i32` addition. */
  function VersionAfter(conforms: LocationReader, current: string): Option<nat> {
    if !conforms(current) then Some(1)
    else
      var name := LastSegment(current);
      match IndexOf(name, '-')
      case None => Some(1)
      case Some(i) =>
        match ParseVersion(name[..i])
        case None => Some(1)
        case Some(v) => if v < MAX_I32 then Some(v + 1) else None
  }

  predicate IsFilePart(text: string) {
    '/' !in text
  }

  lemma FileNameHasNoSlash(version: nat, uuid: string, suffix: string)
    requires IsFilePart(uuid) && IsFilePart(suffix)
    ensures PathSegments(["metadata", FileName(version, uuid, suffix)])
    ensures MetadataPath("", version, uuid, suffix) == Levels(["metadata", FileName(version, uuid, suffix)])
  {
    var file := FileName(version, uuid, suffix);
    assert file[0] == Padded(version)[0] && Padded(version)[0] in Padded(version);
    assert '/' !in ".metadata.json" && '/' !in Padded(version);
    assert ["metadata", file][1..] == [file] && Levels([file][1..]) == "";
    assert "/" + "metadata" + ("/" + file) == "" + "/metadata/" + file;
  }

  lemma LastSegmentOfPath(location: string, version: nat, uuid: string, suffix: string)
    requires IsFilePart(uuid) && IsFilePart(suffix)
    ensures LastSegment(MetadataPath(location, version, uuid, suffix)) == FileName(version, uuid, suffix)
  {
    var file := FileName(version, uuid, suffix);
    FileNameHasNoSlash(version, uuid, suffix);
    assert PathSegment(["metadata", file][1]);
    SplitAtSep(location + "/metadata", file, '/');
    SplitFree(file, '/');
    assert location + "/metadata" + ['/'] + file == MetadataPath(location, version, uuid, suffix);
  }

  lemma VersionOfFileName(version: nat, uuid: string, suffix: string)
    ensures var file := FileName(version, uuid, suffix);
            IndexOf(file, '-') == Some(|Padded(version)|) && file[..|Padded(version)|] == Padded(version)
  {
    var file, n := FileName(version, uuid, suffix), |Padded(version)|;
    assert file[..n] == Padded(version) && file[n] == '-';
    forall i | 0 <= i < n ensures file[i] != '-' {
      assert file[i] == Padded(version)[i] && Padded(version)[i] in Padded(version);
    }
  }

  /** The version a table file was built with is the one the next commit counts from. */
  lemma VersionsCountUp(conforms: LocationReader, location: string, version: nat, uuid: string, suffix: string)
    requires IsFilePart(uuid) && IsFilePart(suffix) && version < MAX_I32
    ensures var file := TableFile(conforms, location, version, uuid, suffix);
            file.Some? ==> VersionAfter(conforms, file.value) == Some(version + 1)
  {
    LastSegmentOfPath(location, version, uuid, suffix);
    VersionOfFileName(version, uuid, suffix);
    ParseOfPadded(version);
  }

  /** What one commit was written with. */
  datatype Commit = Commit(location: string, uuid: string, suffix: string, file: string)

  /** A table's files from its creation: the first at version 0, each other at the version after the one before. */
  ghost predicate IsHistory(conforms: LocationReader, commits: seq<Commit>) {
    && (forall k :: 0 <= k < |commits| ==> IsFilePart(commits[k].uuid) && IsFilePart(commits[k].suffix))
    && (commits != [] ==> Wrote(conforms, commits[0], Some(0)))
    && forall k :: 1 <= k < |commits| ==> Wrote(conforms, commits[k], VersionAfter(conforms, commits[k - 1].file))
  }

  predicate Wrote(conforms: LocationReader, commit: Commit, version: Option<nat>) {
    && version.Some?
    && TableFile(conforms, commit.location, version.value, commit.uuid, commit.suffix) == Some(commit.file)
  }

  /** Over any history of commits, moves included, the files are numbered in order from zero. */
  lemma {:induction false} HistoryCountsUp(conforms: LocationReader, commits: seq<Commit>, k: nat)
    requires IsHistory(conforms, commits) && k < |commits| && k < MAX_I32
    ensures Wrote(conforms, commits[k], Some(k)) && VersionAfter(conforms, commits[k].file) == Some(k + 1)
  {
    if k > 0 {
      HistoryCountsUp(conforms, commits, k - 1);
    }
    VersionsCountUp(conforms, commits[k].location, k, commits[k].uuid, commits[k].suffix);
  }

  // ---------------------------------------------------------------------------
  // The text of a path
  // ---------------------------------------------------------------------------

  /** The decimal digits of a number, without leading zeros, and then padded to five. */
  ghost predicate IsNumeral(text: string, n: nat) {
    && |text| >= 5 && (forall i :: 0 <= i < |text| ==> '0' <= text[i] <= '9') && (|text| > 5 ==> text[0] != '0')
    && Value(text) == n
  }

  lemma {:induction false} DecimalStart(n: nat)
    ensures Decimal(n)[0] == '0' <==> n == 0
  {
    if n >= 10 {
      DecimalStart(n / 10);
    }
  }

  lemma PaddedIsNumeral(n: nat)
    ensures IsNumeral(Padded(n), n)
  {
    var digits := Decimal(n);
    var k := if |digits| < 5 then 5 - |digits| else 0;
    ValueOfDecimal(n);
    ValueIgnoresZeros(k, digits);
    DecimalStart(n);
    forall i | 0 <= i < |Padded(n)| ensures '0' <= Padded(n)[i] <= '9' {
      assert Padded(n)[i] in Padded(n);
      assert IsDigit(Padded(n)[i]);
    }
    if |digits| > 5 {
      assert Zeros(0) + digits == digits;
    }
  }

  /** A metadata file is kept under `metadata`, named by its number, a unique part, a codec and its extension. */
  lemma MetadataPathText(location: string, version: nat, uuid: string, suffix: string) returns (number: string)
    ensures IsNumeral(number, version)
    ensures MetadataPath(location, version, uuid, suffix) ==
            location + "/metadata/" + (number + "-" + uuid + suffix + ".metadata.json")
  {
    number := Padded(version);
    PaddedIsNumeral(version);
  }

  lemma NameIsLast(directory: string, name: string)
    requires '/' !in name
    ensures LastSegment(directory + "/" + name) == name
  {
    SplitAtSep(directory, name, '/');
    SplitFree(name, '/');
  }

  lemma FirstDash(number: string, rest: string, name: string)
    requires '-' !in number && name == number + "-" + rest
    ensures IndexOf(name, '-') == Some(|number|) && name[..|number|] == number
  {
    assert name[|number|] == '-' && forall i :: 0 <= i < |number| ==> name[i] == number[i];
  }

  lemma ReadsDigits(number: string)
    requires number != "" && forall i :: 0 <= i < |number| ==> '0' <= number[i] <= '9'
    ensures forall c :: c in number ==> IsDigit(c)
    ensures ParseVersion(number) == if Value(number) <= 0x7FFF_FFFF then Some(Value(number)) else None
  {
    assert number[0] != '+';
  }

  /**
   * The number that follows a file: one more than the number its name starts with, if the file is a metadata file named
   * so and the number has 32 bits; else one. At the largest number there is no next.
   */
  lemma VersionAfterIs(conforms: LocationReader, directory: string, number: string, rest: string)
    requires '/' !in number && '/' !in rest && '-' !in number && number != ""
    requires forall i :: 0 <= i < |number| ==> '0' <= number[i] <= '9'
    ensures forall c :: c in number ==> IsDigit(c)
    ensures var current := directory + "/" + (number + "-" + rest);
            VersionAfter(conforms, current) ==
            if !conforms(current) || Value(number) > 0x7FFF_FFFF then Some(1)
            else if Value(number) == 0x7FFF_FFFF then None else Some(Value(number) + 1)
  {
    var name := number + "-" + rest;
    ReadsDigits(number);
    FirstDash(number, rest, name);
    NameIsLast(directory, name);
  }

  /** A file whose name has no dash, or anything but digits before its first, starts a fresh sequence. */
  lemma UnnumberedStartsAfresh(conforms: LocationReader, directory: string, start: string, rest: string, c: char)
    requires '/' !in start && '/' !in rest && '-' !in start
    requires c in start && c != '+' && !('0' <= c <= '9')
    ensures VersionAfter(conforms, directory + "/" + start) == Some(1)
    ensures VersionAfter(conforms, directory + "/" + (start + "-" + rest)) == Some(1)
  {
    NameIsLast(directory, start);
    FirstDash(start, rest, start + "-" + rest);
    NameIsLast(directory, start + "-" + rest);
    NoNumber(start, c);
  }

  lemma NoNumber(start: string, c: char)
    requires c in start && c != '+' && !('0' <= c <= '9')
    ensures ParseVersion(start) == None
  {
    var digits := if start != "" && start[0] == '+' then start[1..] else start;
    assert c in digits && !IsDigit(c);
  }
}
