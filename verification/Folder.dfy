/** Folder names and object keys: internal/storage/folder.go and the key of internal/handler/upload.go. */
module FolderNames {

  /** filepath.Ext: from the last dot of the last path element. */
  function Ext(s: string): (ext: string)
    ensures |ext| <= |s| && s[|s| - |ext|..] == ext && '/' !in ext
  {
    if s == "" then ""
    else
      var init, c := s[..|s| - 1], s[|s| - 1];
      if c == '/' then ""
      else if c == '.' then "."
      else if Ext(init) == "" then "" else Ext(init) + [c]
  }

  function Stem(s: string): string {
    s[..|s| - |Ext(s)|]
  }

  /** unicode.ToLower, as far as it can be seen after cleaning: U+0130 and U+212A are the only other
      characters that it lowers to ASCII letters; whatever else it changes ends up as a hyphen either way. */
  function LowerChar(c: char): char {
    if 'A' <= c <= 'Z' then (c as int + 32) as char
    else if c == '\U{0130}' then 'i'
    else if c == '\U{212A}' then 'k'
    else c
  }

  predicate Allowed(c: char) {
    'a' <= c <= 'z' || '0' <= c <= '9' || c == '-' || c == '_'
  }

  function CleanChar(c: char): char {
    if Allowed(LowerChar(c)) then LowerChar(c) else '-'
  }

  function Clean(s: string): (r: string)
    ensures |r| == |s|
  {
    seq(|s|, i requires 0 <= i < |s| => CleanChar(s[i]))
  }

  /** Every run of hyphens becomes one hyphen. */
  function Collapse(s: string): string {
    if s == "" then ""
    else if s[0] == '-' && |s| > 1 && s[1] == '-' then Collapse(s[1..])
    else [s[0]] + Collapse(s[1..])
  }

  function TrimLeft(s: string): string {
    if s != "" && s[0] == '-' then TrimLeft(s[1..]) else s
  }

  function TrimRight(s: string): string {
    if s != "" && s[|s| - 1] == '-' then TrimRight(s[..|s| - 1]) else s
  }

  function Squeeze(s: string): string {
    TrimRight(TrimLeft(Collapse(s)))
  }

  function FolderName(originalFilename: string): string {
    var name := Squeeze(Clean(Stem(originalFilename)));
    if name == "" then "file" else name
  }

  /** GenerateFileFolderName. */
  method GenerateFileFolderName(originalFilename: string) returns (name: string)
    ensures name == FolderName(originalFilename)
  {
    var ext := Ext(originalFilename);
    name := originalFilename[..|originalFilename| - |ext|];
    var lower := seq(|name|, i requires 0 <= i < |name| => LowerChar(name[i]));
    ghost var stem := name;
    var b: string := "";
    for i := 0 to |lower|
      invariant b == Clean(stem)[..i]
    {
      var r := lower[i];
      assert Clean(stem)[..i + 1] == Clean(stem)[..i] + [Clean(stem)[i]];
      if 'a' <= r <= 'z' || '0' <= r <= '9' || r == '-' || r == '_' {
        b := b + [r];
      } else {
        b := b + ['-'];
      }
    }
    assert b == Clean(stem);
    name := Collapse(b);
    name := TrimRight(TrimLeft(name));
    if name == "" {
      name := "file";
    }
  }

  // ---------------------------------------------------------------------------
  // What happens to extension and characters
  // ---------------------------------------------------------------------------

  lemma ExtSnoc(init: string, c: char)
    ensures Ext(init + [c]) == if c == '/' then "" else if c == '.' then "." else if Ext(init) == "" then "" else Ext(init) + [c]
  {
    assert (init + [c])[..|init|] == init;
  }

  /** The extension goes from the last dot on. */
  lemma {:induction false} StemMeans(base: string, ext: string)
    requires '.' !in ext && '/' !in ext
    ensures Ext(base + "." + ext) == "." + ext && Stem(base + "." + ext) == base
  {
    hide Ext;
    if ext == "" {
      ExtSnoc(base, '.');
      assert base + "." + ext == base + ['.'];
    } else {
      var init, c := ext[..|ext| - 1], ext[|ext| - 1];
      assert ext == init + [c];
      StemMeans(base, init);
      ExtSnoc(base + "." + init, c);
      assert base + "." + ext == base + "." + init + [c];
    }
  }

  /** A name without a dot after its last slash has none. */
  lemma {:induction false} NoExtension(dir: string, name: string)
    requires '.' !in name && '/' !in name
    ensures Ext(dir + "/" + name) == "" && Stem(dir + "/" + name) == dir + "/" + name
  {
    hide Ext;
    if name == "" {
      ExtSnoc(dir, '/');
      assert dir + "/" + name == dir + ['/'];
    } else {
      var init, c := name[..|name| - 1], name[|name| - 1];
      assert name == init + [c];
      NoExtension(dir, init);
      ExtSnoc(dir + "/" + init, c);
      assert dir + "/" + name == dir + "/" + init + [c];
    }
  }

  /** Letters are lowered, digits, hyphens and underscores stay, and everything else becomes a hyphen, but for the
      two other characters whose lower case is an ASCII letter. */
  lemma CleanMeans(s: string, i: nat)
    requires i < |s|
    ensures var c, d := s[i], Clean(s)[i];
            && ('A' <= c <= 'Z' ==> 'a' <= d <= 'z' && d as int - 'a' as int == c as int - 'A' as int)
            && ('a' <= c <= 'z' || '0' <= c <= '9' || c == '-' || c == '_' ==> d == c)
            && (c == '\U{0130}' ==> d == 'i') && (c == '\U{212A}' ==> d == 'k')
            && (!('A' <= c <= 'Z' || 'a' <= c <= 'z' || '0' <= c <= '9' || c in "-_\U{0130}\U{212A}") ==> d == '-')
  {
  }

  /** The example in the source. */
  lemma MyPhoto()
    ensures FolderName("My Photo (2).jpg") == "my-photo-2"
  {
    hide Squeeze, Fields, Hyphenated, Ext, Clean;
    assert "My Photo (2).jpg" == "My Photo (2)" + "." + "jpg";
    StemMeans("My Photo (2)", "jpg");
    MyPhotoClean();
    SqueezeJoinsFields("my-photo--2-");
    MyPhotoFields();
  }

  lemma MyPhotoClean()
    ensures Clean("My Photo (2)") == "my-photo--2-"
  {
  }

  lemma MyPhotoFields()
    ensures Hyphenated(Fields("my-photo--2-")) == "my-photo-2"
  {
    hide Fields, Hyphenated;
    FieldThen("my", "-photo--2-");
    FieldThen("photo", "--2-");
    FieldThen("2", "-");
    HyphenThen("photo--2-");
    HyphenThen("-2-");
    HyphenThen("2-");
    HyphenThen("");
    assert "my" + "-photo--2-" == "my-photo--2-" && "photo" + "--2-" == "photo--2-" && "2" + "-" == "2-";
    assert "-" + "photo--2-" == "-photo--2-" && "-" + "-2-" == "--2-" && "-" + "2-" == "-2-" && "-" + "" == "-";
    NoFields();
    ThreeFields("my", "photo", "2");
    assert ["my"] + (["photo"] + (["2"] + [])) == ["my", "photo", "2"];
  }

  lemma HyphenThen(rest: string)
    ensures Fields("-" + rest) == Fields(rest)
  {
    assert ("-" + rest)[1..] == rest;
  }

  lemma NoFields()
    ensures Fields("") == []
  {
  }

  lemma ThreeFields(a: string, b: string, c: string)
    ensures Hyphenated([a, b, c]) == a + "-" + b + "-" + c
  {
    assert [a, b, c][1..] == [b, c] && [b, c][1..] == [c];
    assert Hyphenated([b, c]) == b + "-" + c;
    assert a + "-" + (b + "-" + c) == a + "-" + b + "-" + c;
  }

  lemma {:induction false} RunOf(f: string, rest: string)
    requires NoHyphen(f) && rest != "" && rest[0] == '-'
    ensures Run(f + rest) == |f|
  {
    if f != "" {
      assert (f + rest)[1..] == f[1..] + rest;
      RunOf(f[1..], rest);
    }
  }

  lemma FieldThen(f: string, rest: string)
    requires f != "" && NoHyphen(f) && rest != "" && rest[0] == '-'
    ensures Fields(f + rest) == [f] + Fields(rest)
  {
    RunOf(f, rest);
    assert (f + rest)[..|f|] == f && (f + rest)[|f|..] == rest;
  }

  // ---------------------------------------------------------------------------
  // Normal form
  // ---------------------------------------------------------------------------

  predicate NoHyphen(s: string) {
    forall i :: 0 <= i < |s| ==> s[i] != '-'
  }

  predicate AllAllowed(s: string) {
    forall i :: 0 <= i < |s| ==> Allowed(s[i])
  }

  /** Lower-case letters, digits, hyphens and underscores, with hyphens only one at a time and inside. */
  predicate Normal(name: string) {
    && name != "" && name[0] != '-' && name[|name| - 1] != '-'
    && AllAllowed(name)
    && (forall i :: 0 <= i < |name| - 1 ==> name[i] != '-' || name[i + 1] != '-')
  }

  /** The length of the hyphen-free text in front. */
  function Run(s: string): (k: nat)
    ensures k <= |s| && NoHyphen(s[..k]) && (k < |s| ==> s[k] == '-')
  {
    if s == "" || s[0] == '-' then 0 else 1 + Run(s[1..])
  }

  /** The non-empty fields between hyphens. */
  function Fields(s: string): (fields: seq<string>)
    ensures forall i :: 0 <= i < |fields| ==> fields[i] != "" && NoHyphen(fields[i])
    decreases |s|
  {
    if s == "" then []
    else if s[0] == '-' then Fields(s[1..])
    else
      var k := Run(s);
      [s[..k]] + Fields(s[k..])
  }

  function Hyphenated(fields: seq<string>): string {
    if fields == [] then ""
    else if |fields| == 1 then fields[0]
    else fields[0] + "-" + Hyphenated(fields[1..])
  }

  lemma {:induction false} CollapseAfterField(f: string, rest: string)
    requires NoHyphen(f)
    ensures Collapse(f + rest) == f + Collapse(rest)
  {
    if f == "" {
      assert f + rest == rest;
    } else {
      assert (f + rest)[1..] == f[1..] + rest;
      CollapseAfterField(f[1..], rest);
    }
  }

  lemma {:induction false} TrimRightAfter(f: string, rest: string)
    requires TrimRight(rest) != "" || (f != "" && f[|f| - 1] != '-')
    ensures TrimRight(f + rest) == f + TrimRight(rest)
    decreases |rest|
  {
    if rest == "" {
      assert f + rest == f;
    } else if rest[|rest| - 1] == '-' {
      assert (f + rest)[..|f + rest| - 1] == f + rest[..|rest| - 1];
      TrimRightAfter(f, rest[..|rest| - 1]);
    }
  }

  lemma {:induction false} CollapseHyphen(s: string)
    requires s != "" && s[0] == '-'
    ensures Collapse(s) == "-" + Collapse(s[1..]) || Collapse(s) == Collapse(s[1..])
    ensures TrimLeft(Collapse(s)) == TrimLeft(Collapse(s[1..]))
    ensures Collapse(s) == "-" + TrimLeft(Collapse(s[1..]))
  {
    if |s| > 1 && s[1] == '-' {
      CollapseHyphen(s[1..]);
      assert TrimLeft("-" + TrimLeft(Collapse(s[1..][1..]))) == TrimLeft(Collapse(s[1..][1..])) by {
        TrimLeftTwice(Collapse(s[1..][1..]));
      }
    } else {
      var c := Collapse(s[1..]);
      assert ("-" + c)[1..] == c;
      if |s| > 1 {
        assert c[0] == s[1];
      }
    }
  }

  lemma {:induction false} TrimLeftTwice(s: string)
    ensures TrimLeft("-" + TrimLeft(s)) == TrimLeft(s)
    ensures TrimLeft(s) == "" || TrimLeft(s)[0] != '-'
  {
    assert ("-" + TrimLeft(s))[1..] == TrimLeft(s);
    if s != "" && s[0] == '-' {
      TrimLeftTwice(s[1..]);
    }
  }

  lemma {:induction false} CollapseStart(s: string)
    ensures Collapse(s) == "" <==> s == ""
    ensures s != "" ==> Collapse(s)[0] == s[0]
  {
    if s != "" {
      CollapseStart(s[1..]);
    }
  }

  lemma SqueezeSkipsHyphen(s: string)
    requires s != "" && s[0] == '-'
    ensures Squeeze(s) == Squeeze(s[1..])
  {
    CollapseHyphen(s);
  }

  /** What follows a field: nothing, or a hyphen and what the rest squeezes to. */
  lemma TrimmedRest(rest: string)
    requires rest != "" && rest[0] == '-'
    ensures TrimRight(Collapse(rest)) == if Squeeze(rest) == "" then "" else "-" + Squeeze(rest)
  {
    CollapseHyphen(rest);
    SqueezeSkipsHyphen(rest);
    var t := TrimLeft(Collapse(rest[1..]));
    TrimLeftTwice(Collapse(rest[1..]));
    if t == "" {
      assert "-"[..0] == "" && "-" + t == "-";
    } else {
      FirstStays(t);
      TrimRightAfter("-", t);
    }
  }

  lemma FieldThenRest(f: string, rest: string)
    requires f != "" && NoHyphen(f) && (rest == "" || rest[0] == '-')
    ensures Squeeze(f + rest) == if Squeeze(rest) == "" then f else f + "-" + Squeeze(rest)
  {
    CollapseAfterField(f, rest);
    TrimRightAfter(f, Collapse(rest));
    if rest != "" {
      TrimmedRest(rest);
      assert f + ("-" + Squeeze(rest)) == f + "-" + Squeeze(rest);
    }
  }

  /** Collapsing and trimming is joining the non-empty fields by single hyphens. */
  lemma {:induction false} SqueezeJoinsFields(s: string)
    ensures Squeeze(s) == Hyphenated(Fields(s))
    decreases |s|
  {
    hide Squeeze;
    if s == "" {
      assert Squeeze(s) == "" by { SqueezeEmpty(); }
    } else if s[0] == '-' {
      SqueezeSkipsHyphen(s);
      SqueezeJoinsFields(s[1..]);
    } else {
      var k := Run(s);
      var f, rest := s[..k], s[k..];
      assert s == f + rest;
      FieldThenRest(f, rest);
      SqueezeJoinsFields(rest);
      HyphenatedEmpty(Fields(rest));
      assert Fields(s)[1..] == Fields(rest);
    }
  }

  lemma SqueezeEmpty()
    ensures Squeeze("") == ""
  {
  }

  lemma {:induction false} FirstStays(t: string)
    requires t != "" && t[0] != '-'
    ensures TrimRight(t) != "" && TrimRight(t)[0] == t[0]
  {
    if t[|t| - 1] == '-' {
      FirstStays(t[..|t| - 1]);
    }
  }

  lemma HyphenatedEmpty(fields: seq<string>)
    requires forall i :: 0 <= i < |fields| ==> fields[i] != ""
    ensures Hyphenated(fields) == "" <==> fields == []
  {
  }

  lemma {:induction false} HyphenatedIsNormal(fields: seq<string>)
    requires fields != []
    requires forall i :: 0 <= i < |fields| ==> fields[i] != "" && NoHyphen(fields[i])
    requires forall i :: 0 <= i < |fields| ==> AllAllowed(fields[i])
    ensures Normal(Hyphenated(fields))
  {
    var f := fields[0];
    if |fields| > 1 {
      HyphenatedIsNormal(fields[1..]);
      var rest := Hyphenated(fields[1..]);
      var r := f + "-" + rest;
      forall i | 0 <= i < |r| ensures Allowed(r[i]) {
        assert i > |f| ==> r[i] == rest[i - |f| - 1];
      }
      forall i | 0 <= i < |r| - 1 ensures r[i] != '-' || r[i + 1] != '-' {
        assert i > |f| ==> r[i] == rest[i - |f| - 1] && r[i + 1] == rest[i - |f|];
      }
    }
  }

  lemma {:induction false} FieldsAllowed(s: string)
    requires AllAllowed(s)
    ensures forall i :: 0 <= i < |Fields(s)| ==> AllAllowed(Fields(s)[i])
    decreases |s|
  {
    if s != "" {
      FieldsAllowed(if s[0] == '-' then s[1..] else s[Run(s)..]);
    }
  }

  /** Every name is the non-empty fields of the cleaned stem joined by single hyphens, or "file", and it is in
      normal form. */
  lemma NameIsNormal(originalFilename: string)
    ensures var fields := Fields(Clean(Stem(originalFilename)));
            FolderName(originalFilename) == if fields == [] then "file" else Hyphenated(fields)
    ensures Normal(FolderName(originalFilename))
  {
    var s := Clean(Stem(originalFilename));
    SqueezeJoinsFields(s);
    HyphenatedEmpty(Fields(s));
    FieldsAllowed(s);
    if Fields(s) != [] {
      HyphenatedIsNormal(Fields(s));
    }
  }

  lemma {:induction false} NormalIsFixed(s: string)
    requires forall i :: 0 <= i < |s| - 1 ==> s[i] != '-' || s[i + 1] != '-'
    ensures Collapse(s) == s
  {
    if s != "" {
      NormalIsFixed(s[1..]);
    }
  }

  lemma {:induction false} NoDotNoExt(s: string)
    requires '.' !in s
    ensures Ext(s) == ""
  {
    if s != "" {
      NoDotNoExt(s[..|s| - 1]);
    }
  }

  lemma CleanKeeps(s: string)
    requires AllAllowed(s)
    ensures Clean(s) == s && Ext(s) == "" && Stem(s) == s
  {
    NoDotNoExt(s);
  }

  lemma NormalStays(name: string)
    requires Normal(name)
    ensures FolderName(name) == name
  {
    CleanKeeps(name);
    NormalIsFixed(name);
  }

  /** The names that the sanitiser leaves alone are exactly those in normal form; so it is idempotent. */
  lemma FixedPoints(name: string)
    ensures FolderName(name) == name <==> Normal(name)
    ensures FolderName(FolderName(name)) == FolderName(name)
  {
    hide *;
    NameIsNormal(name);
    NormalStays(FolderName(name));
    if Normal(name) {
      NormalStays(name);
    }
  }

  // ---------------------------------------------------------------------------
  // Timestamps
  // ---------------------------------------------------------------------------

  function Digits(n: nat): (d: string)
    ensures d != "" && forall c :: c in d ==> '0' <= c <= '9'
  {
    var c := ('0' as int + n % 10) as char;
    if n < 10 then [c] else Digits(n / 10) + [c]
  }

  function ValueOf(d: string): int {
    if d == "" then 0 else ValueOf(d[..|d| - 1]) * 10 + (d[|d| - 1] as int - '0' as int)
  }

  lemma {:induction false} DigitsValue(n: nat)
    ensures ValueOf(Digits(n)) == n
  {
    var c := ('0' as int + n % 10) as char;
    if n >= 10 {
      DigitsValue(n / 10);
      assert (Digits(n / 10) + [c])[..|Digits(n / 10)|] == Digits(n / 10);
    } else {
      assert [c][..0] == "";
    }
  }

  /** The verb %d. */
  function Decimal(n: int): string {
    if n >= 0 then Digits(n) else "-" + Digits(-n)
  }

  function TimestampedName(base: string, millis: int): string {
    base + "-" + Decimal(millis)
  }

  lemma LastChar(a: string, d: string)
    ensures var s := a + "-" + d;
            && s[|s| - 1] == (if d == "" then '-' else d[|d| - 1])
            && s[..|s| - 1] == (if d == "" then a else a + "-" + d[..|d| - 1])
  {
  }

  lemma {:induction false} LastHyphenIsUnique(a: string, d: string, b: string, e: string)
    requires NoHyphen(d) && NoHyphen(e) && a + "-" + d == b + "-" + e
    ensures a == b && d == e
    decreases |d|
  {
    LastChar(a, d);
    LastChar(b, e);
    if d != "" {
      LastHyphenIsUnique(a, d[..|d| - 1], b, e[..|e| - 1]);
      assert d == d[..|d| - 1] + [d[|d| - 1]] && e == e[..|e| - 1] + [e[|e| - 1]];
    }
  }

  function Magnitude(n: int): nat {
    if n < 0 then -n else n
  }

  /** The last hyphen of a timestamped name stands before the digits. */
  lemma SplitTimestamp(base: string, millis: int)
    ensures TimestampedName(base, millis) == (if millis < 0 then base + "-" else base) + "-" + Digits(Magnitude(millis))
    ensures NoHyphen(Digits(Magnitude(millis)))
  {
    var d := Digits(Magnitude(millis));
    forall i | 0 <= i < |d| ensures d[i] != '-' {
      assert d[i] in d;
    }
  }

  predicate EndsInside(base: string) {
    base != "" && base[|base| - 1] != '-'
  }

  lemma SameSplit(b1: string, neg1: bool, b2: string, neg2: bool)
    requires EndsInside(b1) && EndsInside(b2)
    requires (if neg1 then b1 + "-" else b1) == (if neg2 then b2 + "-" else b2)
    ensures b1 == b2 && neg1 == neg2
  {
    var a1, a2 := if neg1 then b1 + "-" else b1, if neg2 then b2 + "-" else b2;
    assert a1[|a1| - 1] == a2[|a2| - 1];
    assert neg1 == neg2;
    assert neg1 ==> a1[..|a1| - 1] == b1 && a2[..|a2| - 1] == b2;
  }

  lemma TimestampedNameInjective(b1: string, millis1: int, b2: string, millis2: int)
    requires EndsInside(b1) && EndsInside(b2)
    ensures TimestampedName(b1, millis1) == TimestampedName(b2, millis2) <==> b1 == b2 && millis1 == millis2
  {
    hide *;
    SplitTimestamp(b1, millis1);
    SplitTimestamp(b2, millis2);
    if TimestampedName(b1, millis1) == TimestampedName(b2, millis2) {
      var a1, a2 := if millis1 < 0 then b1 + "-" else b1, if millis2 < 0 then b2 + "-" else b2;
      LastHyphenIsUnique(a1, Digits(Magnitude(millis1)), a2, Digits(Magnitude(millis2)));
      DigitsValue(Magnitude(millis1));
      DigitsValue(Magnitude(millis2));
      SameSplit(b1, millis1 < 0, b2, millis2 < 0);
      SameMagnitude(millis1, millis2);
    }
  }

  lemma SameMagnitude(m: int, n: int)
    ensures (m < 0) == (n < 0) && Magnitude(m) == Magnitude(n) ==> m == n
  {
  }

  /** The example in the source. */
  lemma ProfileImage()
    ensures TimestampedName("profile-image", 1708967531234) == "profile-image-1708967531234"
  {
    assert Digits(170896) == "170896";
    assert Digits(170896753) == "170896753";
    assert Digits(170896753123) == "170896753123";
  }

  /** Two uploads get the same folder name if and only if their sanitised names and their milliseconds agree. */
  lemma TimestampedInjective(file1: string, millis1: int, file2: string, millis2: int)
    ensures TimestampedName(FolderName(file1), millis1) == TimestampedName(FolderName(file2), millis2) <==>
            FolderName(file1) == FolderName(file2) && millis1 == millis2
  {
    NameIsNormal(file1);
    NameIsNormal(file2);
    TimestampedNameInjective(FolderName(file1), millis1, FolderName(file2), millis2);
  }
}

/** Object keys: building them, taking them apart, and why folders do not mix. */
module ObjectKeys {
  import opened FolderNames

  predicate NoSlash(s: string) {
    forall i :: 0 <= i < |s| ==> s[i] != '/'
  }

  /** strings.Split(s, "/") */
  function Split(s: string): (segments: seq<string>)
    ensures |segments| >= 1 && forall i :: 0 <= i < |segments| ==> NoSlash(segments[i])
  {
    if s == "" then [""]
    else
      var rest := Split(s[1..]);
      if s[0] == '/' then [""] + rest else [[s[0]] + rest[0]] + rest[1..]
  }

  /** strings.Join(segments, "/") */
  function Join(segments: seq<string>): string {
    if segments == [] then ""
    else if |segments| == 1 then segments[0]
    else segments[0] + "/" + Join(segments[1..])
  }

  predicate Contains(s: string, c: char) {
    exists i :: 0 <= i < |s| && s[i] == c
  }

  /** The part before the last slash, or nothing. */
  function ExtractFolderPath(key: string): string {
    if key == "" then ""
    else if key[|key| - 1] == '/' then key[..|key| - 1]
    else ExtractFolderPath(key[..|key| - 1])
  }

  predicate IsNewFolderStructure(key: string) {
    var segments := Split(key);
    |segments| == 3 && Contains(segments[2], '.') && ("original." <= segments[2] || !Contains(segments[2], '-'))
  }

  datatype Info = Info(org: string, folder: string, filename: string, legacy: bool)

  function ParseFolderStructure(key: string): Info {
    var segments := Split(key);
    var n := |segments|;
    if n >= 3 && IsNewFolderStructure(key) then Info(segments[0], segments[1], Join(segments[2..]), false)
    else if n > 1 then Info(segments[0], Join(segments[..n - 1]), segments[n - 1], true)
    else Info("unknown", "", segments[0], true)
  }

  function TrimDot(ext: string): string {
    if ext != "" && ext[0] == '.' then ext[1..] else ext
  }

  function GenerateVariantKey(folderPath: string, variant: string, ext: string): string {
    folderPath + "/" + variant + "." + TrimDot(ext)
  }

  function FolderPath(slug: string, folder: string): string {
    slug + "/" + folder
  }

  /** The key of an uploaded original; `fallback` is the extension of its MIME type. */
  function OriginalKey(slug: string, filename: string, millis: int, fallback: string): string {
    slug + "/" + TimestampedName(FolderName(filename), millis) + "/original." + Extension(filename, fallback)
  }

  function Extension(filename: string, fallback: string): string {
    if TrimDot(Ext(filename)) == "" then fallback else TrimDot(Ext(filename))
  }

  /** GetPublicURL, with everything before the object key fixed by the configuration and the bucket. */
  function PublicURL(base: string, key: string): string {
    base + "/" + key
  }

  // ---------------------------------------------------------------------------
  // Splitting and joining
  // ---------------------------------------------------------------------------

  lemma {:induction false} JoinSplit(s: string)
    ensures Join(Split(s)) == s
  {
    if s != "" {
      JoinSplit(s[1..]);
      var rest := Split(s[1..]);
      if s[0] == '/' {
        assert ([""] + rest)[1..] == rest;
      } else {
        assert ([[s[0]] + rest[0]] + rest[1..])[1..] == rest[1..];
      }
    }
  }

  lemma {:induction false} SplitNoSlash(s: string)
    requires NoSlash(s)
    ensures Split(s) == [s]
  {
    if s != "" {
      SplitNoSlash(s[1..]);
      assert [s[0]] + s[1..] == s && Split(s[1..])[1..] == [];
    }
  }

  lemma {:induction false} SplitAtSlash(a: string, b: string)
    ensures Split(a + "/" + b) == Split(a) + Split(b)
  {
    var s := a + "/" + b;
    if a == "" {
      assert s[1..] == b;
    } else {
      assert s[0] == a[0] && s[1..] == a[1..] + "/" + b;
      SplitAtSlash(a[1..], b);
    }
  }

  lemma {:induction false} JoinLast(segments: seq<string>)
    requires |segments| > 1
    ensures Join(segments) == Join(segments[..|segments| - 1]) + "/" + segments[|segments| - 1]
  {
    if |segments| > 2 {
      JoinLast(segments[1..]);
      assert segments[1..][..|segments| - 2] == segments[..|segments| - 1][1..];
    }
  }

  lemma Join3(a: string, b: string, c: string)
    ensures Join([a, b, c]) == a + "/" + b + "/" + c
    ensures Join([a, b]) == a + "/" + b
  {
    assert [a, b, c][1..] == [b, c] && [b, c][1..] == [c] && [a, b][1..] == [b];
    assert Join([b, c]) == b + "/" + c;
    assert a + "/" + (b + "/" + c) == a + "/" + b + "/" + c;
  }

  lemma {:induction false} FolderOfLeaf(path: string, leaf: string)
    requires NoSlash(leaf)
    ensures ExtractFolderPath(path + "/" + leaf) == path
  {
    var key := path + "/" + leaf;
    if leaf == "" {
      assert key[..|key| - 1] == path;
    } else {
      assert key[|key| - 1] == leaf[|leaf| - 1];
      assert key[..|key| - 1] == path + "/" + leaf[..|leaf| - 1];
      FolderOfLeaf(path, leaf[..|leaf| - 1]);
    }
  }

  lemma {:induction false} NoSlashNoFolder(key: string)
    requires NoSlash(key)
    ensures ExtractFolderPath(key) == ""
  {
    if key != "" {
      NoSlashNoFolder(key[..|key| - 1]);
    }
  }

  /** The folder is everything up to the last segment. */
  lemma FolderIsInit(key: string)
    ensures var segments := Split(key);
            ExtractFolderPath(key) == Join(segments[..|segments| - 1])
  {
    var segments := Split(key);
    JoinSplit(key);
    if |segments| > 1 {
      JoinLast(segments);
      FolderOfLeaf(Join(segments[..|segments| - 1]), segments[|segments| - 1]);
    } else {
      assert key == segments[0];
      NoSlashNoFolder(key);
    }
  }

  // ---------------------------------------------------------------------------
  // Parsing loses nothing
  // ---------------------------------------------------------------------------

  /** The key that a parsed structure came from. */
  function Rebuild(info: Info): string {
    if !info.legacy then info.org + "/" + info.folder + "/" + info.filename
    else if info.folder == "" && info.org == "unknown" then info.filename
    else info.folder + "/" + info.filename
  }

  lemma ParseIsLossless(key: string)
    ensures Rebuild(ParseFolderStructure(key)) == key
  {
    var segments := Split(key);
    JoinSplit(key);
    if IsNewFolderStructure(key) {
      assert segments == [segments[0], segments[1], segments[2]] && segments[2..] == [segments[2]];
      Join3(segments[0], segments[1], segments[2]);
    } else if |segments| > 1 {
      JoinLast(segments);
      JoinInitEmpty(segments);
    }
  }

  lemma JoinInitEmpty(segments: seq<string>)
    requires |segments| > 1
    ensures Join(segments[..|segments| - 1]) == "" ==> segments[0] == ""
  {
    assert segments[..|segments| - 1][0] == segments[0];
  }

  /** All that parsing finds, by the number of slashes: in a key with exactly two, a filename with a dot, and either
      the name of an original or no hyphen, makes the key a new-style one. */
  lemma ParseMeans(org: string, middle: string, filename: string)
    requires NoSlash(org) && NoSlash(filename)
    ensures ParseFolderStructure(filename) == Info("unknown", "", filename, true)
    ensures ParseFolderStructure(org + "/" + filename) == Info(org, org, filename, true)
    ensures ParseFolderStructure(org + "/" + middle + "/" + filename) ==
            if NoSlash(middle) && '.' in filename && ("original." <= filename || '-' !in filename)
            then Info(org, middle, filename, false)
            else Info(org, org + "/" + middle, filename, true)
  {
    SplitNoSlash(org);
    SplitNoSlash(filename);
    SplitAtSlash(org, filename);
    SplitAtSlash(org + "/" + middle, filename);
    SplitAtSlash(org, middle);
    JoinSplit(middle);
    JoinSplit(org + "/" + middle);
    if NoSlash(middle) {
      SplitNoSlash(middle);
    }
    var segments := Split(org + "/" + middle + "/" + filename);
    assert segments == [org] + Split(middle) + [filename];
    assert segments[..|segments| - 1] == Split(org + "/" + middle);
    assert NoSlash(middle) ==> segments[2..] == [filename];
    assert Split(org + "/" + filename) == [org, filename] && [org, filename][..1] == [org];
    assert |Split(middle)| == 1 ==> NoSlash(middle);
  }

  lemma ExtensionIs(filename: string, ext: string, fallback: string)
    requires Ext(filename) == "." + ext || (Ext(filename) == "" == ext)
    ensures Extension(filename, fallback) == if ext == "" then fallback else ext
  {
    hide Ext;
    assert ("." + ext)[1..] == ext;
  }

  /** The extension in the key of an upload: that of the filename, or the fallback if it has none. */
  lemma ExtensionMeans(base: string, ext: string, fallback: string)
    requires '.' !in ext && '/' !in ext
    ensures Extension(base + "." + ext, fallback) == if ext == "" then fallback else ext
    ensures Extension(ext, fallback) == fallback
  {
    hide *;
    StemMeans(base, ext);
    NoDotNoExt(ext);
    ExtensionIs(base + "." + ext, ext, fallback);
    ExtensionIs(ext, "", fallback);
  }

  /** Both ways to find the folder of a key agree. */
  lemma ParseAgreesWithExtract(key: string)
    ensures var info := ParseFolderStructure(key);
            ExtractFolderPath(key) == if info.legacy then info.folder else FolderPath(info.org, info.folder)
  {
    FolderIsInit(key);
    var segments := Split(key);
    if IsNewFolderStructure(key) {
      assert segments[..2][1..] == [segments[1]];
    } else if |segments| == 1 {
      assert segments[..0] == [];
    }
  }

  // ---------------------------------------------------------------------------
  // Generated keys
  // ---------------------------------------------------------------------------

  predicate LeafName(leaf: string) {
    NoSlash(leaf) && Contains(leaf, '.') && ("original." <= leaf || !Contains(leaf, '-'))
  }

  /** A key in a generated folder parses back to its parts, as a new-style key, if and only if the slug is free
      of slashes; otherwise it parses as a legacy key. */
  lemma GeneratedKeyParses(slug: string, folder: string, leaf: string)
    requires NoSlash(folder) && LeafName(leaf)
    ensures ParseFolderStructure(FolderPath(slug, folder) + "/" + leaf) == Info(slug, folder, leaf, false) <==>
            NoSlash(slug)
    ensures ParseFolderStructure(FolderPath(slug, folder) + "/" + leaf).legacy <==> !NoSlash(slug)
    ensures ExtractFolderPath(FolderPath(slug, folder) + "/" + leaf) == FolderPath(slug, folder)
  {
    FolderOfLeaf(FolderPath(slug, folder), leaf);
    SplitGenerated(slug, folder, leaf);
    var segments := Split(FolderPath(slug, folder) + "/" + leaf);
    assert |segments| == 3 ==> segments[2..] == [leaf];
    assert |segments| == 3 ==> segments[0] == Split(slug)[0];
  }

  lemma SplitGenerated(slug: string, folder: string, leaf: string)
    requires NoSlash(folder) && NoSlash(leaf)
    ensures Split(FolderPath(slug, folder) + "/" + leaf) == Split(slug) + [folder, leaf]
    ensures |Split(slug)| == 1 <==> NoSlash(slug)
    ensures |Split(slug)| == 1 ==> Split(slug)[0] == slug
  {
    SplitAtSlash(FolderPath(slug, folder), leaf);
    SplitAtSlash(slug, folder);
    SplitNoSlash(folder);
    SplitNoSlash(leaf);
    assert Split(slug) + [folder] + [leaf] == Split(slug) + [folder, leaf];
    JoinSplit(slug);
    if NoSlash(slug) {
      SplitNoSlash(slug);
    }
  }

  lemma NormalNoSlash(file: string, millis: int)
    ensures NoSlash(TimestampedName(FolderName(file), millis))
  {
    NameIsNormal(file);
    var d := Digits(Magnitude(millis));
    forall i | 0 <= i < |d| ensures d[i] != '/' {
      assert d[i] in d;
    }
    SplitTimestamp(FolderName(file), millis);
  }

  /** The key of an upload parses back to the slug, the timestamped folder and original.<ext>, exactly if the
      slug is free of slashes, and otherwise as a legacy key. */
  lemma OriginalKeyParses(slug: string, filename: string, millis: int, fallback: string)
    requires NoSlash(fallback)
    ensures var folder := TimestampedName(FolderName(filename), millis);
            var leaf := "original." + Extension(filename, fallback);
            var key := OriginalKey(slug, filename, millis, fallback);
            && key == FolderPath(slug, folder) + "/" + leaf
            && ExtractFolderPath(key) == FolderPath(slug, folder)
            && (ParseFolderStructure(key) == Info(slug, folder, leaf, false) <==> NoSlash(slug))
            && (ParseFolderStructure(key).legacy <==> !NoSlash(slug))
  {
    hide FolderName, TimestampedName, ParseFolderStructure, ExtractFolderPath, Ext;
    var folder := TimestampedName(FolderName(filename), millis);
    var ext := Extension(filename, fallback);
    var leaf := "original." + ext;
    NormalNoSlash(filename, millis);
    assert NoSlash(ext);
    assert leaf[8] == '.';
    assert slug + "/" + folder + "/original." + ext == FolderPath(slug, folder) + "/" + leaf;
    GeneratedKeyParses(slug, folder, leaf);
  }

  /** The names of the default variants, in their order; all are encoded as WebP. */
  const VARIANTS: seq<string> := ["thumbnail", "small", "medium", "large", "original_webp"]

  function VariantKey(folderPath: string, i: nat): string
    requires i < |VARIANTS|
  {
    GenerateVariantKey(folderPath, VARIANTS[i], "webp")
  }

  /** The keys of the default variants. */
  lemma VariantKeysAre(folderPath: string)
    ensures |VARIANTS| == 5
    ensures VariantKey(folderPath, 0) == folderPath + "/thumbnail.webp"
    ensures VariantKey(folderPath, 1) == folderPath + "/small.webp"
    ensures VariantKey(folderPath, 2) == folderPath + "/medium.webp"
    ensures VariantKey(folderPath, 3) == folderPath + "/large.webp"
    ensures VariantKey(folderPath, 4) == folderPath + "/original_webp.webp"
  {
    forall i: nat | i < 5 ensures VariantKey(folderPath, i) == folderPath + "/" + VARIANTS[i] + ".webp" {}
    assert "/" + "thumbnail" + ".webp" == "/thumbnail.webp" && "/" + "small" + ".webp" == "/small.webp";
    assert "/" + "medium" + ".webp" == "/medium.webp" && "/" + "large" + ".webp" == "/large.webp";
    assert "/" + "original_webp" + ".webp" == "/original_webp.webp";
  }

  lemma VariantLeaf(folderPath: string, i: nat)
    requires i < |VARIANTS|
    ensures var leaf := VARIANTS[i] + ".webp";
            VariantKey(folderPath, i) == folderPath + "/" + leaf && LeafName(leaf) && !("original." <= leaf)
  {
    var leaf := VARIANTS[i] + ".webp";
    assert folderPath + "/" + VARIANTS[i] + "." + "webp" == folderPath + "/" + leaf;
    assert leaf[|VARIANTS[i]|] == '.';
    assert leaf[0] != 'o' || leaf[8] != '.';
    assert "original."[0] == 'o' && "original."[8] == '.';
  }

  lemma VariantKeyParses(slug: string, folder: string, i: nat)
    requires NoSlash(folder) && i < |VARIANTS|
    ensures (ParseFolderStructure(VariantKey(FolderPath(slug, folder), i)) ==
             Info(slug, folder, VARIANTS[i] + ".webp", false)) <==> NoSlash(slug)
  {
    VariantLeaf(FolderPath(slug, folder), i);
    GeneratedKeyParses(slug, folder, VARIANTS[i] + ".webp");
  }

  // ---------------------------------------------------------------------------
  // Folders do not mix
  // ---------------------------------------------------------------------------

  /** A folder path of the shape slug/folder. */
  predicate GoodFolder(path: string) {
    |Split(path)| == 2
  }

  lemma SameFolderPath(slug1: string, name1: string, slug2: string, name2: string)
    requires NoSlash(name1) && NoSlash(name2) && FolderPath(slug1, name1) == FolderPath(slug2, name2)
    ensures slug1 == slug2 && name1 == name2
  {
    FolderOfLeaf(slug1, name1);
    FolderOfLeaf(slug2, name2);
    assert FolderPath(slug1, name1)[|slug1| + 1..] == name1 && FolderPath(slug2, name2)[|slug2| + 1..] == name2;
  }

  /** For all slugs: removing everything under one folder takes a key of another folder if and only if the folders
      are the same, or the first one is a part of the slug of the second. */
  lemma FoldersMixIff(slug1: string, name1: string, slug2: string, name2: string, leaf: string)
    requires NoSlash(name1) && NoSlash(name2) && NoSlash(leaf)
    ensures FolderPath(slug1, name1) + "/" <= FolderPath(slug2, name2) + "/" + leaf <==>
            (slug1 == slug2 && name1 == name2) || FolderPath(slug1, name1) + "/" <= slug2 + "/"
  {
    var prefix, path := FolderPath(slug1, name1) + "/", FolderPath(slug2, name2);
    var key := path + "/" + leaf;
    assert key == slug2 + "/" + (name2 + "/" + leaf);
    if prefix <= key {
      var last := |prefix| - 1;
      assert key[last] == '/';
      assert forall m :: |path| < m < |key| ==> key[m] == leaf[m - |path| - 1];
      assert forall m :: |slug2| < m < |path| ==> key[m] == name2[m - |slug2| - 1];
      if last == |path| {
        assert prefix[..last] == key[..last] == path;
        SameFolderPath(slug1, name1, slug2, name2);
      } else {
        assert slug2 + "/" == key[..|slug2| + 1];
      }
    }
  }

  /** Every folder path of the shape slug/name is a slug without a slash and a name without one. */
  lemma GoodFolderParts(path: string) returns (slug: string, name: string)
    requires GoodFolder(path)
    ensures NoSlash(slug) && NoSlash(name) && path == FolderPath(slug, name)
  {
    slug, name := Split(path)[0], Split(path)[1];
    JoinSplit(path);
    assert Split(path)[1..] == [name];
  }

  /** Among slugs without slashes only the same folder is meant. */
  lemma PrefixIsolation(path: string, other: string, leaf: string)
    requires GoodFolder(path) && GoodFolder(other) && NoSlash(leaf)
    ensures path + "/" <= other + "/" + leaf <==> path == other
  {
    var slug1, name1 := GoodFolderParts(path);
    var slug2, name2 := GoodFolderParts(other);
    FoldersMixIff(slug1, name1, slug2, name2, leaf);
    assert (path + "/")[|slug1|] == '/';
    assert forall m :: 0 <= m < |slug2| ==> (slug2 + "/")[m] == slug2[m];
  }

  /** A key in a folder is the folder's path and a leaf. */
  lemma KeyShape(key: string) returns (leaf: string)
    requires ExtractFolderPath(key) != ""
    ensures NoSlash(leaf) && key == ExtractFolderPath(key) + "/" + leaf
  {
    var segments := Split(key);
    FolderIsInit(key);
    JoinSplit(key);
    leaf := segments[|segments| - 1];
    assert segments[..0] == [];
    JoinLast(segments);
  }

  /** A slug that is another upload's folder, or continues it, puts one folder inside the other. */
  lemma SlashesNest(slug: string, folder: string, rest: string, inner: string, leaf: string)
    requires NoSlash(folder) && NoSlash(inner) && NoSlash(leaf) && (rest == "" || rest[0] == '/')
    ensures var outer := FolderPath(slug, folder);
            outer + "/" <= FolderPath(outer + rest, inner) + "/" + leaf && outer != FolderPath(outer + rest, inner)
  {
    var outer := FolderPath(slug, folder);
    assert outer + "/" <= outer + rest + "/";
    FoldersMixIff(slug, folder, outer + rest, inner, leaf);
  }

  lemma GoodFolderOf(slug: string, folder: string)
    requires NoSlash(folder)
    ensures GoodFolder(FolderPath(slug, folder)) <==> NoSlash(slug)
  {
    SplitAtSlash(slug, folder);
    SplitNoSlash(folder);
    if NoSlash(slug) {
      SplitNoSlash(slug);
    } else {
      JoinSplit(slug);
    }
  }

  lemma PublicURLInjective(base: string, key1: string, key2: string)
    requires PublicURL(base, key1) == PublicURL(base, key2)
    ensures key1 == key2
  {
    assert PublicURL(base, key1)[|base| + 1..] == key1;
    assert PublicURL(base, key2)[|base| + 1..] == key2;
  }
}
