/** What client and server accept as store paths, derived paths and output hashes. */
module StorePaths {
  import opened Basics
  import opened Bytes

  const MAXIMUM_PATH := 222
  const HASH_LENGTH := 32
  const SLASH: byte := 47
  const BANG: byte := 33
  const COMMA: byte := 44
  const STAR: byte := 42
  const EQUALS: byte := 61

  /** "/nix/store" */
  const STORE: seq<byte> := [47, 110, 105, 120, 47, 115, 116, 111, 114, 101]

  /** ".drv" */
  const DRV: seq<byte> := [46, 100, 114, 118]

  predicate EndsWith(s: seq<byte>, suffix: seq<byte>) {
    |suffix| <= |s| && s[|s| - |suffix|..] == suffix
  }

  predicate IsDigit(b: byte) { 48 <= b <= 57 }

  predicate IsLower(b: byte) { 97 <= b <= 122 }

  predicate IsUpper(b: byte) { 65 <= b <= 90 }

  predicate IsAlphanumeric(b: byte) { IsDigit(b) || IsLower(b) || IsUpper(b) }

  /** Digits and lower-case letters but e, o, t and u. */
  predicate IsHashByte(b: byte) {
    IsDigit(b) || (IsLower(b) && b != 101 && b != 111 && b != 116 && b != 117)
  }

  /** Letters, digits and `+-._`. */
  predicate IsOutputByte(b: byte) {
    IsAlphanumeric(b) || b == 43 || b == 45 || b == 46 || b == 95
  }

  /** The same and `?=`. */
  predicate IsNameByte(b: byte) {
    IsOutputByte(b) || b == 63 || b == EQUALS
  }

  predicate All(s: seq<byte>, ok: byte -> bool) {
    forall i :: 0 <= i < |s| ==> ok(s[i])
  }

  predicate ValidDirectory(d: seq<byte>) {
    d != [] && |d| < MAXIMUM_PATH && d[0] == SLASH && d[|d| - 1] != SLASH && 0 !in d
  }

  function LastComponent(path: seq<byte>): (r: seq<byte>)
    ensures SLASH !in r
  {
    if path == [] || path[|path| - 1] == SLASH then [] else LastComponent(path[..|path| - 1]) + [path[|path| - 1]]
  }

  predicate ValidBase(base: seq<byte>) {
    |base| > HASH_LENGTH + 1 && base[HASH_LENGTH] == 45 && All(base[..HASH_LENGTH], IsHashByte)
            && All(base[HASH_LENGTH + 1..], IsNameByte)
  }

  predicate ValidIn(path: seq<byte>, d: seq<byte>) {
    && ValidDirectory(d)
    && |path| <= MAXIMUM_PATH && d <= path && |d| < |path| && path[|d|] == SLASH && SLASH !in path[|d| + 1..]
    && |path| > |d| + 1 + HASH_LENGTH + 1
    && ValidBase(LastComponent(path))
  }

  predicate ValidPath(path: seq<byte>) {
    ValidIn(path, STORE)
  }

  /** A path, or the empty string that stands for none. */
  predicate OptionalPath(v: seq<byte>) {
    v == [] || ValidPath(v)
  }

  lemma {:induction false} LastComponentIs(prefix: seq<byte>, base: seq<byte>)
    requires SLASH !in base
    ensures LastComponent(prefix + [SLASH] + base) == base
    decreases |base|
  {
    var path := prefix + [SLASH] + base;
    if base == [] {
      assert path[|path| - 1] == SLASH;
    } else {
      var init := base[..|base| - 1];
      assert path[..|path| - 1] == prefix + [SLASH] + init;
      LastComponentIs(prefix, init);
      assert base == init + [base[|base| - 1]];
      assert path[|path| - 1] == base[|base| - 1];
    }
  }

  /** A valid path is the directory, a slash, and a base of which the rest of the path is
      made; it holds no zero byte and no `!`. */
  lemma ValidPathBytes(path: seq<byte>)
    requires ValidPath(path)
    ensures ValidBase(path[|STORE| + 1..]) && 0 !in path && BANG !in path && STORE + [SLASH] <= path
  {
    var base := path[|STORE| + 1..];
    assert path == STORE + [SLASH] + base;
    LastComponentIs(STORE, base);
    forall i | 0 <= i < |path| ensures path[i] != 0 && path[i] != BANG {
      if i > |STORE| {
        var k := i - |STORE| - 1;
        assert path[i] == base[k];
        if k < HASH_LENGTH { assert base[..HASH_LENGTH][k] == base[k]; }
        if k > HASH_LENGTH { assert base[HASH_LENGTH + 1..][k - HASH_LENGTH - 1] == base[k]; }
      }
    }
  }

  /** A path of thirty-two digits `a` and a name. */
  function SamplePath(name: seq<byte>): seq<byte> {
    STORE + [SLASH] + (seq(HASH_LENGTH, _ => 97) + [45] + name)
  }

  /** The directory, a slash and a base make a path. */
  lemma BaseMakesPath(base: seq<byte>)
    requires ValidBase(base) && SLASH !in base && |base| <= MAXIMUM_PATH - |STORE| - 1
    ensures ValidPath(STORE + [SLASH] + base) && (STORE + [SLASH] + base)[|STORE| + 1..] == base
  {
    var path := STORE + [SLASH] + base;
    LastComponentIs(STORE, base);
    assert path[|STORE| + 1..] == base;
  }

  lemma SampleBaseIsValid(hash: seq<byte>, name: seq<byte>)
    requires |hash| == HASH_LENGTH && All(hash, IsHashByte) && name != [] && All(name, IsNameByte)
    ensures var base := hash + [45] + name; ValidBase(base) && SLASH !in base && EndsWith(base, name)
  {
    var base := hash + [45] + name;
    assert base[..HASH_LENGTH] == hash && base[HASH_LENGTH + 1..] == name;
  }

  lemma SamplePathIsValid(name: seq<byte>)
    requires 0 < |name| <= 170 && All(name, IsNameByte)
    ensures ValidPath(SamplePath(name)) && EndsWith(SamplePath(name), name)
  {
    var hash: seq<byte> := seq(HASH_LENGTH, _ => 97);
    SampleBaseIsValid(hash, name);
    BaseMakesPath(hash + [45] + name);
    EndsWithEnd(SamplePath(name), hash + [45] + name, name);
  }

  lemma EndsWithEnd(s: seq<byte>, end: seq<byte>, suffix: seq<byte>)
    requires EndsWith(s, end) && EndsWith(end, suffix)
    ensures EndsWith(s, suffix)
  {
    assert s[|s| - |suffix|..] == s[|s| - |end|..][|end| - |suffix|..];
  }

  /** `validate_build_store_path`. */
  predicate ValidBuildPath(path: seq<byte>) {
    ValidPath(path) && STORE + [SLASH] <= path
  }

  // ----- output hashes -----

  predicate IsLowerHex(b: byte) {
    IsDigit(b) || 97 <= b <= 102
  }

  /** Hexadecimal digits of a hash: md5, sha1, sha256 and sha512. */
  function HashDigits(algorithm: seq<byte>): nat {
    if algorithm == [109, 100, 53] then 32
    else if algorithm == [115, 104, 97, 49] then 40
    else if algorithm == [115, 104, 97, 50, 53, 54] then 64
    else if algorithm == [115, 104, 97, 53, 49, 50] then 128
    else 0
  }

  /** Without the "r:" of a recursive hash. */
  function FlatAlgorithm(algorithm: seq<byte>): seq<byte> {
    if [114, 58] <= algorithm then algorithm[2..] else algorithm
  }

  predicate ValidHash(algorithm: seq<byte>, hash: seq<byte>) {
    (algorithm == [] && hash == []) ||
    (HashDigits(FlatAlgorithm(algorithm)) > 0 && |hash| == HashDigits(FlatAlgorithm(algorithm)) && All(hash, IsLowerHex))
  }

  /** Valid hashes are well within the sizes the decoder reads. */
  lemma ValidHashSizes(algorithm: seq<byte>, hash: seq<byte>)
    requires ValidHash(algorithm, hash)
    ensures |algorithm| <= 8 && |hash| <= 128
  {
  }

  // ----- derived paths -----

  function IndexOf(s: seq<byte>, b: byte): (i: nat)
    ensures i <= |s| && (i < |s| ==> s[i] == b)
    ensures forall j :: 0 <= j < i ==> s[j] != b
  {
    if s == [] || s[0] == b then 0 else 1 + IndexOf(s[1..], b)
  }

  /** Every part between commas is a star or a name. */
  predicate ValidOutputs(s: seq<byte>) {
    var i := IndexOf(s, COMMA);
    && i > 0 && (s[..i] == [STAR] || All(s[..i], IsOutputByte))
    && (i < |s| ==> ValidOutputs(s[i + 1..]))
  }

  /** The server's check: the path before the first `!`, outputs behind it. */
  predicate ServerDerived(target: seq<byte>) {
    var i := IndexOf(target, BANG);
    ValidPath(target[..i]) && (i < |target| ==> ValidOutputs(target[i + 1..]))
  }

  /** The client's check: at most one `!`, and outputs only of a derivation. */
  predicate ClientDerived(target: seq<byte>) {
    var i := IndexOf(target, BANG);
    && ValidPath(target[..i])
    && (i < |target| ==> ClientOutputs(target[..i], target[i + 1..]))
  }

  predicate ClientOutputs(path: seq<byte>, outputs: seq<byte>) {
    BANG !in outputs && EndsWith(path, DRV) && outputs != [] && |outputs| <= MAXIMUM_PATH && ValidOutputs(outputs)
  }

  /** A path by itself is a target. */
  lemma PathIsDerived(path: seq<byte>)
    requires ValidPath(path)
    ensures ClientDerived(path)
  {
    ValidPathBytes(path);
    assert IndexOf(path, BANG) == |path| && path[..|path|] == path;
  }

  const MAXIMUM_DERIVED := MAXIMUM_PATH + 1 + 256

  /** The server takes every target the client writes, and reads it within its limit. */
  lemma ClientDerivedIsServerDerived(target: seq<byte>)
    requires ClientDerived(target)
    ensures ServerDerived(target) && |target| <= MAXIMUM_DERIVED
  {
  }

  lemma {:induction false} OutputsHoldNoBang(s: seq<byte>)
    requires ValidOutputs(s)
    ensures BANG !in s
    decreases |s|
  {
    var i := IndexOf(s, COMMA);
    forall k | 0 <= k < |s| ensures s[k] != BANG {
      if k < i {
        assert s[..i][k] == s[k];
      } else if k > i {
        OutputsHoldNoBang(s[i + 1..]);
        assert s[i + 1..][k - i - 1] == s[k];
      }
    }
  }

  lemma ClientOutputsIff(path: seq<byte>, outputs: seq<byte>)
    requires ValidOutputs(outputs)
    ensures ClientOutputs(path, outputs) <==> EndsWith(path, DRV) && |outputs| <= MAXIMUM_PATH
  {
    OutputsHoldNoBang(outputs);
  }

  /** What the server takes and the client would not write: outputs of a path that is no
      derivation, or outputs beyond the client's limit. */
  lemma ServerDerivedIsClientDerivedIff(target: seq<byte>)
    requires ServerDerived(target)
    ensures var i := IndexOf(target, BANG);
            ClientDerived(target) <==> (i < |target| ==> EndsWith(target[..i], DRV) && |target[i + 1..]| <= MAXIMUM_PATH)
  {
    var i := IndexOf(target, BANG);
    if i < |target| {
      ClientOutputsIff(target[..i], target[i + 1..]);
    }
  }

  // ----- the same, spelled out -----

  /** The bytes of a text in ASCII. */
  function Ascii(text: string): (r: seq<byte>)
    requires forall i :: 0 <= i < |text| ==> text[i] as int < 128
    ensures |r| == |text| && forall i :: 0 <= i < |text| ==> r[i] == text[i] as int
  {
    seq(|text|, i requires 0 <= i < |text| => text[i] as int)
  }

  lemma HashAlphabet(b: byte)
    ensures IsHashByte(b) <==> (b as char) in "0123456789abcdfghijklmnpqrsvwxyz"
  {
  }

  predicate LetterOrDigit(c: char) {
    '0' <= c <= '9' || 'A' <= c <= 'Z' || 'a' <= c <= 'z'
  }

  lemma NameAlphabet(b: byte)
    ensures IsNameByte(b) <==> LetterOrDigit(b as char) || (b as char) in "+-._?="
    ensures IsOutputByte(b) <==> LetterOrDigit(b as char) || (b as char) in "+-._"
  {
  }

  /** "/nix/store/", thirty-two digits of the store's alphabet, a dash and a non-empty name; at
      most 222 bytes. */
  ghost predicate SpelledPath(path: seq<byte>) {
    && 44 < |path| <= 222
    && path[..11] == Ascii("/nix/store/")
    && (forall i :: 11 <= i < 43 ==> (path[i] as char) in "0123456789abcdfghijklmnpqrsvwxyz")
    && path[43] == '-' as int
    && (forall i :: 44 <= i < |path| ==>
          LetterOrDigit(path[i] as char) || (path[i] as char) in "+-._?=")
  }

  lemma StorePrefix()
    ensures STORE + [SLASH] == Ascii("/nix/store/")
  {
  }

  lemma BaseIff(base: seq<byte>)
    ensures ValidBase(base) <==>
            && |base| > 33 && base[32] == '-' as int
            && (forall i :: 0 <= i < 32 ==> IsHashByte(base[i])) && (forall i :: 33 <= i < |base| ==> IsNameByte(base[i]))
  {
    if |base| > 33 {
      assert forall i :: 0 <= i < 32 ==> base[..32][i] == base[i];
      assert forall i :: 33 <= i < |base| ==> base[i] == base[33..][i - 33];
      assert forall i :: 0 <= i < |base| - 33 ==> base[33..][i] == base[i + 33];
    }
  }

  lemma ValidPathIff(path: seq<byte>)
    ensures ValidPath(path) <==> SpelledPath(path)
  {
    StorePrefix();
    forall b: byte
      ensures IsHashByte(b) <==> (b as char) in "0123456789abcdfghijklmnpqrsvwxyz"
      ensures IsNameByte(b) <==> LetterOrDigit(b as char) || (b as char) in "+-._?="
    {
      HashAlphabet(b);
      NameAlphabet(b);
    }
    if ValidPath(path) {
      ValidPathBytes(path);
      BaseIff(path[11..]);
      assert forall i :: 11 <= i < |path| ==> path[i] == path[11..][i - 11];
    }
    if SpelledPath(path) {
      var base := path[11..];
      BaseIff(base);
      assert path == (STORE + [SLASH]) + base;
      NoSlash(base);
      BaseMakesPath(base);
    }
  }

  lemma NoSlash(base: seq<byte>)
    requires ValidBase(base)
    ensures SLASH !in base
  {
    BaseIff(base);
  }

  /** An output hash: none at all, or the lower-case digits of an algorithm, whose name may
      stand behind "r:". */
  ghost predicate SpelledHash(algorithm: seq<byte>, hash: seq<byte>) {
    || (algorithm == [] && hash == [])
    || (exists a :: a in {("md5", 32), ("sha1", 40), ("sha256", 64), ("sha512", 128)} && HashOf(algorithm, hash, a.0, a.1))
  }

  ghost predicate HashOf(algorithm: seq<byte>, hash: seq<byte>, name: string, digits: nat) {
    && (forall i :: 0 <= i < |name| ==> name[i] as int < 128)
    && (algorithm == Ascii(name) || algorithm == Ascii("r:") + Ascii(name))
    && |hash| == digits && forall i :: 0 <= i < |hash| ==> (hash[i] as char) in "0123456789abcdef"
  }

  lemma HexAlphabet(b: byte)
    ensures IsLowerHex(b) <==> (b as char) in "0123456789abcdef"
  {
  }

  lemma AlgorithmNames()
    ensures Ascii("md5") == [109, 100, 53] && Ascii("sha1") == [115, 104, 97, 49] && Ascii("r:") == [114, 58]
    ensures Ascii("sha256") == [115, 104, 97, 50, 53, 54] && Ascii("sha512") == [115, 104, 97, 53, 49, 50]
  {
  }

  lemma FlatOf(algorithm: seq<byte>, name: seq<byte>)
    requires |name| >= 2 && name[0] != 114
    ensures FlatAlgorithm(algorithm) == name <==> algorithm == name || algorithm == [114, 58] + name
  {
    if FlatAlgorithm(algorithm) == name && algorithm != name {
      assert algorithm == [114, 58] + algorithm[2..];
    }
    if algorithm == [114, 58] + name {
      assert algorithm[2..] == name;
    }
  }

  lemma DigitsIff(hash: seq<byte>)
    ensures All(hash, IsLowerHex) <==> forall i :: 0 <= i < |hash| ==> (hash[i] as char) in "0123456789abcdef"
  {
    forall i | 0 <= i < |hash| ensures IsLowerHex(hash[i]) <==> (hash[i] as char) in "0123456789abcdef" {
      HexAlphabet(hash[i]);
    }
  }

  lemma HashOfIff(algorithm: seq<byte>, hash: seq<byte>, name: string, digits: nat)
    requires |name| >= 2 && name[0] != 'r' && forall i :: 0 <= i < |name| ==> name[i] as int < 128
    ensures HashOf(algorithm, hash, name, digits) <==>
            FlatAlgorithm(algorithm) == Ascii(name) && |hash| == digits && All(hash, IsLowerHex)
  {
    AlgorithmNames();
    FlatOf(algorithm, Ascii(name));
    DigitsIff(hash);
  }

  lemma SpelledHashCases(algorithm: seq<byte>, hash: seq<byte>)
    ensures SpelledHash(algorithm, hash) <==>
            || (algorithm == [] && hash == [])
            || HashOf(algorithm, hash, "md5", 32) || HashOf(algorithm, hash, "sha1", 40)
            || HashOf(algorithm, hash, "sha256", 64) || HashOf(algorithm, hash, "sha512", 128)
  {
    var all := {("md5", 32), ("sha1", 40), ("sha256", 64), ("sha512", 128)};
    assert ("md5", 32) in all && ("sha1", 40) in all && ("sha256", 64) in all && ("sha512", 128) in all;
  }

  lemma ValidHashIff(algorithm: seq<byte>, hash: seq<byte>)
    ensures ValidHash(algorithm, hash) <==> SpelledHash(algorithm, hash)
  {
    SpelledHashCases(algorithm, hash);
    AlgorithmNames();
    HashOfIff(algorithm, hash, "md5", 32);
    HashOfIff(algorithm, hash, "sha1", 40);
    HashOfIff(algorithm, hash, "sha256", 64);
    HashOfIff(algorithm, hash, "sha512", 128);
  }

  /** The names with commas between them. */
  function Joined(names: seq<seq<byte>>): seq<byte>
    requires names != []
  {
    if |names| == 1 then names[0] else names[0] + ([44] + Joined(names[1..]))
  }

  /** A star, or a non-empty name of letters, digits and `+-._`. */
  ghost predicate SpelledOutput(name: seq<byte>) {
    name == [42] ||
    (name != [] && forall i :: 0 <= i < |name| ==> LetterOrDigit(name[i] as char) || (name[i] as char) in "+-._")
  }

  ghost predicate SpelledOutputs(names: seq<seq<byte>>) {
    names != [] && forall i :: 0 <= i < |names| ==> SpelledOutput(names[i])
  }

  lemma OutputIff(name: seq<byte>)
    ensures SpelledOutput(name) <==> name != [] && (name == [STAR] || All(name, IsOutputByte))
    ensures SpelledOutput(name) ==> COMMA !in name
  {
    forall b: byte ensures IsOutputByte(b) <==> LetterOrDigit(b as char) || (b as char) in "+-._" {
      NameAlphabet(b);
    }
  }

  lemma {:induction false} IndexAfter(first: seq<byte>, b: byte, rest: seq<byte>)
    requires b !in first
    ensures IndexOf(first + ([b] + rest), b) == |first|
    decreases |first|
  {
    var s := first + ([b] + rest);
    if first == [] {
      assert s[0] == b;
    } else {
      assert s[0] == first[0] && s[1..] == first[1..] + ([b] + rest);
      IndexAfter(first[1..], b, rest);
    }
  }

  lemma IndexNowhere(s: seq<byte>, b: byte)
    requires b !in s
    ensures IndexOf(s, b) == |s|
  {
  }

  /** The first `b` splits a text. */
  lemma SplitAtFirst(first: seq<byte>, b: byte, rest: seq<byte>)
    requires b !in first
    ensures var s := first + ([b] + rest); var i := IndexOf(s, b); i == |first| < |s| && s[..i] == first && s[i + 1..] == rest
  {
    IndexAfter(first, b, rest);
  }

  lemma {:induction false} JoinedIsValid(names: seq<seq<byte>>)
    requires SpelledOutputs(names)
    ensures ValidOutputs(Joined(names))
    decreases |names|
  {
    OutputIff(names[0]);
    if |names| == 1 {
      IndexNowhere(names[0], COMMA);
      assert names[0][..|names[0]|] == names[0];
    } else {
      JoinedIsValid(names[1..]);
      SplitAtFirst(names[0], COMMA, Joined(names[1..]));
    }
  }

  lemma {:induction false} ValidIsJoined(s: seq<byte>) returns (names: seq<seq<byte>>)
    requires ValidOutputs(s)
    ensures SpelledOutputs(names) && s == Joined(names)
    decreases |s|
  {
    var i := IndexOf(s, COMMA);
    OutputIff(s[..i]);
    if i == |s| {
      names := [s];
      assert s[..i] == s;
    } else {
      var more := ValidIsJoined(s[i + 1..]);
      names := [s[..i]] + more;
      assert names[1..] == more;
      assert s == s[..i] + ([44] + s[i + 1..]);
    }
  }

  /** A path, `!`, and outputs with commas between them. */
  ghost predicate SpelledTarget(target: seq<byte>, path: seq<byte>, names: seq<seq<byte>>) {
    SpelledPath(path) && SpelledOutputs(names) && target == path + ([33] + Joined(names))
  }

  lemma PathAlone(path: seq<byte>)
    requires SpelledPath(path)
    ensures ServerDerived(path) && ClientDerived(path)
  {
    ValidPathIff(path);
    PathIsDerived(path);
    ClientDerivedIsServerDerived(path);
  }

  lemma PathWithOutputs(target: seq<byte>, path: seq<byte>, names: seq<seq<byte>>)
    requires SpelledTarget(target, path, names)
    ensures ServerDerived(target)
    ensures ClientDerived(target) <==> EndsWith(path, DRV) && |Joined(names)| <= 222
  {
    ValidPathIff(path);
    ValidPathBytes(path);
    JoinedIsValid(names);
    OutputsHoldNoBang(Joined(names));
    SplitAtFirst(path, BANG, Joined(names));
  }

  lemma DerivedIsSpelled(target: seq<byte>) returns (path: seq<byte>, names: seq<seq<byte>>)
    requires ServerDerived(target)
    ensures SpelledPath(target) || SpelledTarget(target, path, names)
  {
    var i := IndexOf(target, BANG);
    path, names := target[..i], [];
    ValidPathIff(path);
    if i == |target| {
      assert path == target;
    } else {
      names := ValidIsJoined(target[i + 1..]);
      SplitsAt(target, i);
    }
  }

  /** A target for the server: a path, or a path, `!` and outputs. */
  lemma ServerDerivedIff(target: seq<byte>)
    ensures ServerDerived(target) <==> SpelledPath(target) || exists path, names :: SpelledTarget(target, path, names)
  {
    if ServerDerived(target) {
      var path, names := DerivedIsSpelled(target);
    }
    if SpelledPath(target) { PathAlone(target); }
    if path, names :| SpelledTarget(target, path, names) {
      PathWithOutputs(target, path, names);
    }
  }

  /** A target for the client: the same, but outputs only of a path that ends in ".drv", and of
      at most 222 bytes. */
  lemma ClientDerivedIff(target: seq<byte>)
    ensures ClientDerived(target) <==>
            SpelledPath(target) ||
            exists path, names :: SpelledTarget(target, path, names) && path[|path| - 4..] == Ascii(".drv") && |Joined(names)| <= 222
  {
    DrvIs();
    if ClientDerived(target) {
      ClientDerivedIsServerDerived(target);
      var path, names := DerivedIsSpelled(target);
      if !SpelledPath(target) { PathWithOutputs(target, path, names); }
    }
    if SpelledPath(target) { PathAlone(target); }
    if path, names :| SpelledTarget(target, path, names) && path[|path| - 4..] == Ascii(".drv") && |Joined(names)| <= 222 {
      PathWithOutputs(target, path, names);
    }
  }

  lemma DrvIs()
    ensures DRV == Ascii(".drv")
  {
  }
}
