/** Values that others have published: of the hash, in the FNV test suite, and of the code, in
    the tests of both implementations. */
module ShortCodeVectors {
  import opened Bytes
  import opened ShortCode

  predicate Hashes(s: string, h: bv32) {
    Ascii(s) && Fnv1a32(s) == h
  }

  lemma Next(s: string, c: char, t: string, h: bv32, k: bv32)
    requires Hashes(s, h) && c < 128 as char && Mix(h, c) == k && t == s + [c]
    ensures Hashes(t, k)
  {
    assert t[..|s|] == s;
  }

  lemma Seed()
    ensures Hashes("", 0x811C9DC5)
  {
  }

  /** The published values of FNV-1a for no byte, one byte and six. */
  lemma PublishedHashes()
    ensures Hashes("", 0x811C9DC5) && Hashes("a", 0xE40C292C) && Hashes("foobar", 0xBF9CF968)
  {
    hide Hashes;
    Seed();
    Next("", 'a', "a", 0x811C9DC5, 0xE40C292C);
    Foobar();
  }

  lemma Foo()
    ensures Hashes("foo", 0xA9F37ED7)
  {
    hide Hashes;
    Seed();
    Next("", 'f', "f", 0x811C9DC5, 0xE30C2799);
    Next("f", 'o', "fo", 0xE30C2799, 0x6222E842);
    Next("fo", 'o', "foo", 0x6222E842, 0xA9F37ED7);
  }

  lemma Foobar()
    ensures Hashes("foobar", 0xBF9CF968)
  {
    hide Hashes;
    Foo();
    Next("foo", 'b', "foob", 0xA9F37ED7, 0x3F5076EF);
    Next("foob", 'a', "fooba", 0x3F5076EF, 0x39AAA18A);
    Next("fooba", 'r', "foobar", 0x39AAA18A, 0xBF9CF968);
  }

  lemma Vector3()
    ensures Hashes("ttb", 0xBB2B3F35)
  {
    hide Hashes;
    Seed();
    Next("", 't', "t", 0x811C9DC5, 0xF10C3DA3);
    Next("t", 't', "tt", 0xF10C3DA3, 0x4D455975);
    Next("tt", 'b', "ttb", 0x4D455975, 0xBB2B3F35);
  }

  lemma Vector6()
    ensures Hashes("ttbox-", 0xA7367FDD)
  {
    hide Hashes;
    Vector3();
    Next("ttb", 'o', "ttbo", 0xBB2B3F35, 0xFF14BAAE);
    Next("ttbo", 'x', "ttbox", 0xFF14BAAE, 0x63A21EE2);
    Next("ttbox", '-', "ttbox-", 0x63A21EE2, 0xA7367FDD);
  }

  lemma Vector9()
    ensures Hashes("ttbox-lic", 0x18A63927)
  {
    hide Hashes;
    Vector6();
    Next("ttbox-", 'l', "ttbox-l", 0xA7367FDD, 0xEBCB03A3);
    Next("ttbox-l", 'i', "ttbox-li", 0xEBCB03A3, 0xFA96F6FE);
    Next("ttbox-li", 'c', "ttbox-lic", 0xFA96F6FE, 0x18A63927);
  }

  lemma Vector12()
    ensures Hashes("ttbox-lic-20", 0xA114B23C)
  {
    hide Hashes;
    Vector9();
    Next("ttbox-lic", '-', "ttbox-lic-", 0x18A63927, 0xD7ABCABE);
    Next("ttbox-lic-", '2', "ttbox-lic-2", 0xD7ABCABE, 0x0F6FDA64);
    Next("ttbox-lic-2", '0', "ttbox-lic-20", 0x0F6FDA64, 0xA114B23C);
  }

  lemma Vector15()
    ensures Hashes("ttbox-lic-20260", 0x429F910C)
  {
    hide Hashes;
    Vector12();
    Next("ttbox-lic-20", '2', "ttbox-lic-202", 0xA114B23C, 0xA1944C0A);
    Next("ttbox-lic-202", '6', "ttbox-lic-2026", 0xA1944C0A, 0x98740274);
    Next("ttbox-lic-2026", '0', "ttbox-lic-20260", 0x98740274, 0x429F910C);
  }

  lemma Vector18()
    ensures Hashes("ttbox-lic-20260917", 0xAFBB31B7)
  {
    hide Hashes;
    Vector15();
    Next("ttbox-lic-20260", '9', "ttbox-lic-202609", 0x429F910C, 0x1631966F);
    Next("ttbox-lic-202609", '1', "ttbox-lic-2026091", 0x1631966F, 0x4E0FB5FA);
    Next("ttbox-lic-2026091", '7', "ttbox-lic-20260917", 0x4E0FB5FA, 0xAFBB31B7);
  }

  lemma Vector21()
    ensures Hashes("ttbox-lic-20260917-38", 0xADB8088D)
  {
    hide Hashes;
    Vector18();
    Next("ttbox-lic-20260917", '-', "ttbox-lic-20260917-", 0xAFBB31B7, 0x3DAF156E);
    Next("ttbox-lic-20260917-", '3', "ttbox-lic-20260917-3", 0x3DAF156E, 0x779EA167);
    Next("ttbox-lic-20260917-3", '8', "ttbox-lic-20260917-38", 0x779EA167, 0xADB8088D);
  }

  lemma Vector23()
    ensures Hashes("ttbox-lic-20260917-3842", 0x4A156F2B)
  {
    hide Hashes;
    Vector21();
    Next("ttbox-lic-20260917-38", '4', "ttbox-lic-20260917-384", 0xADB8088D, 0x31B5BB3B);
    Next("ttbox-lic-20260917-384", '2', "ttbox-lic-20260917-3842", 0x31B5BB3B, 0x4A156F2B);
  }

  lemma Vector25()
    ensures Hashes("ttbox-lic-20260917-3842ff", 0x006F8183)
  {
    hide Hashes;
    Vector23();
    Next("ttbox-lic-20260917-3842", 'f', "ttbox-lic-20260917-3842f", 0x4A156F2B, 0xECBE3637);
    Next("ttbox-lic-20260917-3842f", 'f', "ttbox-lic-20260917-3842ff", 0xECBE3637, 0x006F8183);
  }

  lemma VectorDigits()
    ensures Digits(7307651, 7) == [0, 0, 6, 31, 0, 12, 3]
  {
    assert Digits(0, 1) == [0];
    assert Digits(6, 3) == [0, 0, 6];
    assert Digits(7136, 5) == [0, 0, 6, 31, 0] by { assert Digits(223, 4) == [0, 0, 6, 31]; }
    assert Digits(228364, 6) == [0, 0, 6, 31, 0, 12];
  }

  lemma TotalOn(s: seq<Digit>, d: Digit, t: seq<Digit>, factor: nat, v: nat)
    requires 1 <= factor <= 2 && t == s + [d] && Total(s, 3 - factor) == v
    ensures Total(t, factor) == (if factor == 1 then d else Folded(d)) + v
  {
    assert t[..|s|] == s;
    AddendIs(d);
    hide Addend;
  }

  /** The check digit of 006Z0C3 is 3: from the right the digits count 6, 12, 0, 31 and 12. */
  lemma VectorCheck()
    ensures Check([0, 0, 6, 31, 0, 12, 3]) == 3
  {
    assert Total([], 2) == 0;
    hide Total;
    TotalOn([], 0, [0], 2, 0);
    TotalOn([0], 0, [0, 0], 1, 0);
    TotalOn([0, 0], 6, [0, 0, 6], 2, 0);
    TotalOn([0, 0, 6], 31, [0, 0, 6, 31], 1, 12);
    TotalOn([0, 0, 6, 31], 0, [0, 0, 6, 31, 0], 2, 43);
    TotalOn([0, 0, 6, 31, 0], 12, [0, 0, 6, 31, 0, 12], 1, 43);
    TotalOn([0, 0, 6, 31, 0, 12], 3, [0, 0, 6, 31, 0, 12, 3], 2, 55);
  }

  lemma Spelled(id: string)
    requires IsValidLicenseId(id) && Data(id) == [0, 0, 6, 31, 0, 12, 3]
    ensures ShortCodeOf(id) == "TTB-006Z-0C33"
  {
    VectorCheck();
    hide Check;
    hide Data;
    var body := Symbols([0, 0, 6, 31, 0, 12, 3]);
    assert body == "006Z0C3";
    assert body[..4] == "006Z" && body[4..] == "0C3";
    hide Symbols;
    assert [Symbol(3)] == "3";
  }

  /** The vector both implementations are tested with. */
  lemma PublishedCode()
    ensures IsValidLicenseId("ttbox-lic-20260917-3842ff") && ShortCodeOf("ttbox-lic-20260917-3842ff") == "TTB-006Z-0C33"
  {
    var id := "ttbox-lic-20260917-3842ff";
    Vector25();
    assert Fnv1a32(id) as int == 7307651;
    hide Fnv1a32;
    VectorDigits();
    hide Digits;
    AllowedVector();
    hide IsValidLicenseId;
    Spelled(id);
    hide ShortCodeOf;
  }

  lemma AllowedVector()
    ensures IsValidLicenseId("ttbox-lic-20260917-3842ff")
  {
  }
}
