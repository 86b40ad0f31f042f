/**
 * The string logic of the Windows helpers: path validation, the slash
 * rewrite of path normalisation, and the parts of the drive listing that do
 * not call the operating system (splitting the drive string, naming the
 * drive type, the used-space figure).
 */
module Windows {
  import opened Strings

  /** Characters no Windows path may hold, in the order they are checked. */
  const InvalidChars: string := "<>:\"|?*"

  /** Device names no component may have, compared after upper-casing. */
  const ReservedNames: seq<string> := [
    "CON", "PRN", "AUX", "NUL",
    "COM1", "COM2", "COM3", "COM4", "COM5", "COM6", "COM7", "COM8", "COM9",
    "LPT1", "LPT2", "LPT3", "LPT4", "LPT5", "LPT6", "LPT7", "LPT8", "LPT9"
  ]

  predicate HasInvalidChar(path: string)
  {
    exists c :: c in InvalidChars && c in path
  }

  predicate ReservedComponent(part: string)
  {
    Upper(part) in ReservedNames
  }

  /**
   * `is_valid_windows_path`: non-empty, none of `< > : " | ? *`, and no
   * backslash-separated component that is a device name in any case.
   */
  function IsValidWindowsPath(path: string): (ok: bool)
    ensures ok ==> path != [] && forall c :: c in InvalidChars ==> c !in path
  {
    if path == [] then false
    else if HasInvalidChar(path) then
      false
    else
      var parts := Split(path, '\\');
      !exists k :: 0 <= k < |parts| && ReservedComponent(parts[k])
  }

  /**
   * Validity in terms of the components a path is made of: for components
   * without backslashes, the joined path is valid exactly when it is
   * non-empty, has no invalid character and no component is reserved.
   */
  lemma ComponentsDecide(parts: seq<string>)
    requires |parts| >= 1
    requires forall k :: 0 <= k < |parts| ==> '\\' !in parts[k]
    ensures IsValidWindowsPath(JoinWith(parts, '\\')) <==>
            && JoinWith(parts, '\\') != []
            && !HasInvalidChar(JoinWith(parts, '\\'))
            && forall k :: 0 <= k < |parts| ==> !ReservedComponent(parts[k])
  {
    JoinSplit(parts, '\\');
  }

  /** A drive-letter path is rejected: ':' is one of the invalid characters. */
  lemma DriveLetterRejected(letter: char, rest: string)
    ensures !IsValidWindowsPath([letter, ':'] + rest)
  {
    var p := [letter, ':'] + rest;
    assert ':' in InvalidChars && p[1] == ':';
  }

  /** Every reserved name is three or four upper-case letters and digits. */
  lemma ReservedNamesPlain()
    ensures forall n :: n in ReservedNames ==>
              3 <= |n| <= 4 && forall i :: 0 <= i < |n| ==> 'A' <= n[i] <= 'Z' || '1' <= n[i] <= '9'
  {
  }

  /** Letters and digits are neither separators nor invalid characters. */
  lemma AlphanumericChars(n: string)
    requires forall i :: 0 <= i < |n| ==> 'A' <= n[i] <= 'Z' || '1' <= n[i] <= '9'
    ensures '\\' !in n && '/' !in n && !HasInvalidChar(n)
  {
    forall c | c in InvalidChars ensures c !in n {
      assert !('A' <= c <= 'Z' || '1' <= c <= '9');
    }
  }

  /** Hence no reserved name holds a separator or an invalid character. */
  lemma ReservedNameChars(n: string)
    requires n in ReservedNames
    ensures 3 <= |n| <= 4 && '\\' !in n && '/' !in n && !HasInvalidChar(n)
  {
    ReservedNamesPlain();
    AlphanumericChars(n);
  }

  lemma InvalidFreeConcat(a: string, b: string)
    requires !HasInvalidChar(a) && !HasInvalidChar(b)
    ensures !HasInvalidChar(a + b)
  {
    forall c | c in InvalidChars ensures c !in a + b {
      CharFreeConcat(a, b, c);
    }
  }

  /** A path without backslashes is a single component. */
  lemma SingleComponent(p: string)
    requires '\\' !in p
    ensures Split(p, '\\') == [p]
  {
    JoinSplit([p], '\\');
  }

  /**
   * Only whole components are compared: a device name with an extension
   * (`CON.txt`) is a valid path.
   */
  lemma DeviceNameWithExtensionAllowed(name: string, ext: string)
    requires name in ReservedNames && ext != []
    requires '\\' !in ext && !HasInvalidChar(ext)
    ensures IsValidWindowsPath(name + "." + ext)
  {
    var p := name + "." + ext;
    ReservedNameChars(name);
    assert !HasInvalidChar(".") && '\\' !in ".";
    InvalidFreeConcat(name, ".");
    InvalidFreeConcat(name + ".", ext);
    CharFreeConcat(name, ".", '\\');
    CharFreeConcat(name + ".", ext, '\\');
    SingleComponent(p);
    assert |Upper(p)| >= 5;
  }

  /** A reserved name as the last backslash-separated component makes the path invalid, in any case. */
  lemma ReservedLastComponentRejected(dir: string, name: string)
    requires '\\' !in dir && '\\' !in name && ReservedComponent(name)
    ensures !IsValidWindowsPath(dir + "\\" + name)
  {
    var parts := [dir, name];
    assert JoinWith(parts, '\\') == dir + "\\" + name;
    JoinSplit(parts, '\\');
    assert Split(dir + "\\" + name, '\\')[1] == name;
  }

  /** A string holding a '/' is no device name. */
  lemma SlashedNotReserved(q: string)
    requires '/' in q
    ensures q !in ReservedNames
  {
    if q in ReservedNames {
      ReservedNameChars(q);
    }
  }

  /** Upper-casing keeps a '/' where it is. */
  lemma UpperKeepsSlash(dir: string, name: string)
    ensures '/' in Upper(dir + "/" + name)
  {
    assert Upper(dir + "/" + name)[|dir|] == '/';
  }

  /**
   * A forward slash does not separate components here: `a/CON` passes,
   * since the whole of it is one component and no device name has a '/'.
   */
  lemma ForwardSlashHidesReservedName(dir: string, name: string)
    requires '\\' !in dir && '\\' !in name && !HasInvalidChar(dir) && !HasInvalidChar(name)
    ensures IsValidWindowsPath(dir + "/" + name)
  {
    var p := dir + "/" + name;
    assert !HasInvalidChar("/") && '\\' !in "/";
    InvalidFreeConcat(dir, "/");
    InvalidFreeConcat(dir + "/", name);
    CharFreeConcat(dir, "/", '\\');
    CharFreeConcat(dir + "/", name, '\\');
    SingleComponent(p);
    UpperKeepsSlash(dir, name);
    SlashedNotReserved(Upper(p));
  }

  // ---------------------------------------------------------------- normalize_windows_path

  /** The rewrite step of `normalize_windows_path`: an empty path is returned as is, otherwise '/' becomes '\'. */
  function NormalizeSlashes(path: string): (r: string)
    ensures |r| == |path| && '/' !in r
    ensures forall i :: 0 <= i < |path| && path[i] != '/' ==> r[i] == path[i]
    ensures forall i :: 0 <= i < |path| && path[i] == '/' ==> r[i] == '\\'
  {
    if path == [] then path else ReplaceChar(path, '/', '\\')
  }

  /** Rewriting twice is rewriting once. */
  lemma NormalizeIdempotent(path: string)
    ensures NormalizeSlashes(NormalizeSlashes(path)) == NormalizeSlashes(path)
  {
  }

  /**
   * The rewrite turns separators the check ignored into ones it reads: a
   * device name after a '/' passes the check, and fails it once normalised.
   */
  lemma NormalizingExposesReservedName(dir: string, name: string)
    requires '\\' !in dir && '\\' !in name && '/' !in dir && '/' !in name
    requires !HasInvalidChar(dir) && !HasInvalidChar(name) && ReservedComponent(name)
    ensures IsValidWindowsPath(dir + "/" + name)
    ensures !IsValidWindowsPath(NormalizeSlashes(dir + "/" + name))
  {
    ForwardSlashHidesReservedName(dir, name);
    var p := dir + "/" + name;
    var q := NormalizeSlashes(p);
    assert q == dir + "\\" + name by {
      forall i | 0 <= i < |p| ensures q[i] == (dir + "\\" + name)[i] {
        if i < |dir| { assert p[i] == dir[i]; }
        else if i > |dir| { assert p[i] == name[i - |dir| - 1]; }
      }
    }
    ReservedLastComponentRejected(dir, name);
  }

  // ---------------------------------------------------------------- get_windows_drives

  /** The drive string: every drive root followed by NUL. */
  function DriveString(drives: seq<string>): (s: string)
  {
    if drives == [] then [] else drives[0] + ['\0'] + DriveString(drives[1..])
  }

  /** `drives.split('\000')[:-1]`: the NUL-separated pieces without the last one. */
  function SplitDrives(s: string): (drives: seq<string>)
    ensures forall k :: 0 <= k < |drives| ==> '\0' !in drives[k]
  {
    var pieces := Split(s, '\0');
    pieces[..|pieces| - 1]
  }

  /** The drive string is the NUL-join of the drives followed by an empty piece. */
  lemma {:induction false} DriveStringJoin(drives: seq<string>)
    ensures DriveString(drives) == JoinWith(drives + [[]], '\0')
    decreases |drives|
  {
    if drives != [] {
      DriveStringJoin(drives[1..]);
      assert (drives + [[]])[1..] == drives[1..] + [[]];
    }
  }

  /** Splitting the drive string gives back the drives, whatever their number. */
  lemma SplitDrivesRoundTrip(drives: seq<string>)
    requires forall k :: 0 <= k < |drives| ==> '\0' !in drives[k]
    ensures SplitDrives(DriveString(drives)) == drives
  {
    DriveStringJoin(drives);
    JoinSplit(drives + [[]], '\0');
    assert (drives + [[]])[..|drives|] == drives;
  }

  /** The `GetDriveType` codes and their names; any other code is `Unknown`. */
  const DriveTypes: map<int, string> := map[
    0 := "Unknown", 1 := "No Root Directory", 2 := "Removable", 3 := "Fixed",
    4 := "Network", 5 := "CD-ROM", 6 := "RAM Disk"
  ]

  function DriveTypeName(code: int): (name: string)
    ensures 0 <= code <= 6 <==> code in DriveTypes
    ensures code in DriveTypes ==> name == DriveTypes[code]
    ensures code !in DriveTypes ==> name == "Unknown"
  {
    if code in DriveTypes then DriveTypes[code] else "Unknown"
  }

  /** A drive type is named `Unknown` exactly when its code is not one of 1 to 6. */
  lemma DriveTypeUnknown(code: int)
    ensures DriveTypeName(code) == "Unknown" <==> !(1 <= code <= 6)
  {
    if 1 <= code <= 6 {
      assert DriveTypeName(code)[0] != 'U';
    }
  }

  datatype SizeInfo = SizeInfo(totalBytes: int, freeBytes: int, usedBytes: int)

  /** The byte figures of a drive: used space is total minus free. */
  function DriveSizes(free: nat, total: nat): (info: SizeInfo)
    ensures info.totalBytes == total && info.freeBytes == free
    ensures info.usedBytes + info.freeBytes == info.totalBytes
    ensures free <= total ==> 0 <= info.usedBytes <= info.totalBytes
  {
    SizeInfo(total, free, total - free)
  }
}
