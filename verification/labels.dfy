/** The text fields as a reader understands them: volume label, OEM name and type name. */
module Labels {
  import opened Machine
  import opened Fat
  import opened Wrappers
  import opened Sector
  import opened RoundTrip
  import opened OptionChecks
  import Reader

  /** The same character, or the capital of a letter. */
  predicate Capital(c: U8, d: U8) {
    if 'a' as int <= c <= 'z' as int then d + ('a' as int - 'A' as int) == c else d == c
  }

  predicate Capitals(s: Bytes, t: Bytes) {
    |s| == |t| && forall i :: 0 <= i < |s| ==> Capital(s[i], t[i])
  }

  /** Spaces behind a text do not change it. */
  lemma {:induction false} SpacesBehind(s: Bytes, n: nat)
    requires |s| <= n
    ensures Reader.Text(Padded(s, n)) == Reader.Text(s)
    decreases n
  {
    var field := Padded(s, n);
    if |s| == n {
      assert field == s;
    } else {
      assert field[..n - 1] == Padded(s, n - 1);
      SpacesBehind(s, n - 1);
    }
  }

  function Uppers(s: Bytes): (t: Bytes)
    ensures Capitals(s, t)
  {
    seq(|s|, i requires 0 <= i < |s| => Upper(s[i]))
  }

  /** A legal label is read back in capitals. */
  lemma LabelText(s: Bytes)
    requires OkLabel(s)
    ensures exists t: Bytes :: Capitals(s, t) && Reader.NameText(LabelBytes(s)) == Reader.Text(t)
  {
    var t := Uppers(s);
    var field := LabelBytes(s);
    SpacesBehind(t, 11);
    assert Capital(s[0], t[0]);
    if field[0] == 0x05 {
      assert [0xe5] + field[1..] == Padded(t, 11);
    } else {
      assert field == Padded(t, 11);
    }
    assert Capitals(s, t) && Reader.NameText(LabelBytes(s)) == Reader.Text(t);
  }

  /** A label is legal exactly if it fits a short name, does not begin with a space, and every byte may stand in one. */
  lemma LabelLegalExactly(s: Bytes)
    ensures OkLabel(s) <==>
              1 <= |s| <= 11 && s[0] != 0x20 && forall i :: 0 <= i < |s| ==> Reader.LegalInName(s[i])
  {
    assert forall c: U8 :: c in FORBIDDEN <==> c in Reader.Chars("\"*+,./:;<=>?[\\]|") by {
      SameCharacters();
    }
  }

  lemma SameCharacters()
    ensures Reader.Chars("\"*+,./:;<=>?[\\]|") == FORBIDDEN
  {
  }

  /** The entry of a legal label is neither free nor the end of its directory. */
  lemma LabelIsAnEntry(s: Bytes)
    requires OkLabel(s)
    ensures LabelBytes(s)[0] !in {0x00, 0x20, 0xe5}
  {
  }

  /** The name of each FAT type. */
  lemma TypeText(fat: nat)
    requires IsFat(fat)
    ensures Reader.Text(TypeName(fat)) ==
            Reader.Chars(if fat == 12 then "FAT12" else if fat == 16 then "FAT16" else "FAT32")
  {
    var s: Bytes := [0x46, 0x41, 0x54, 0x30 + fat / 10 % 10, 0x30 + fat % 10];
    SpacesBehind(s, 8);
    assert Reader.Text(s) == s;
    assert s == Reader.Chars(if fat == 12 then "FAT12" else if fat == 16 then "FAT16" else "FAT32");
  }

  /** The names that are used when none are given. */
  lemma DefaultTexts()
    ensures Reader.Text(Padded(DEFAULT_OEM, 8)) == Reader.Chars("BSD4.4")
    ensures Reader.NameText(LabelBytes(NO_NAME)) == Reader.Chars("NO NAME")
  {
    SpacesBehind(Reader.Chars("BSD4.4"), 8);
    assert Padded(Reader.Chars("BSD4.4"), 8) == Padded(DEFAULT_OEM, 8);
    SpacesBehind(NO_NAME, 11);
    assert LabelBytes(NO_NAME) == Padded(NO_NAME, 11);
    assert NO_NAME == Reader.Chars("NO NAME");
  }

  /** What a reader finds in the text fields of a boot sector. */
  lemma TextsReadBack(v: Volume)
    requires v.Valid()
    ensures var s, at := BootSector(v), if v.fat == 32 then 64 else 36;
            && (v.oem.Some? && |v.oem.value| <= 8 ==> Reader.Text(s[3..11]) == Reader.Text(v.oem.value))
            && (v.oem.None? ==> Reader.Text(s[3..11]) == Reader.Chars("BSD4.4"))
            && (v.volumeLabel.Some? && OkLabel(v.volumeLabel.value) ==>
                  exists t: Bytes :: && Capitals(v.volumeLabel.value, t)
                                     && Reader.NameText(s[at + 7..at + 18]) == Reader.Text(t))
            && (v.volumeLabel.None? ==> Reader.NameText(s[at + 7..at + 18]) == Reader.Chars("NO NAME"))
            && Reader.Text(s[at + 18..at + 26]) ==
               Reader.Chars(if v.fat == 12 then "FAT12" else if v.fat == 16 then "FAT16" else "FAT32")
  {
    NamesReadBack(v);
    TypeText(v.fat);
    DefaultTexts();
    if v.oem.Some? && |v.oem.value| <= 8 {
      SpacesBehind(v.oem.value, 8);
    }
    if v.volumeLabel.Some? && OkLabel(v.volumeLabel.value) {
      LabelText(v.volumeLabel.value);
    }
  }

  /** Fields that are always zero: the drive number, and on FAT32 the flags, the version and the reserved bytes. */
  lemma ZerosReadBack(v: Volume)
    requires v.Valid()
    ensures var s, at := BootSector(v), if v.fat == 32 then 64 else 36;
            && Reader.Read2(s, at) == 0
            && (v.fat == 32 ==>
                  && Reader.Read2(s, 40) == Reader.Read2(s, 42) == 0
                  && forall i :: 52 <= i < 64 ==> s[i] == 0)
  {
    var s, at := BootSector(v), if v.fat == 32 then 64 else 36;
    ExtendedAt(v, at);
    assert s[at] == s[at..at + 26][0] && s[at + 1] == s[at..at + 26][1];
    if v.fat == 32 {
      BootLayout(v);
      BigZeros(v.bpb, s);
    }
  }

  lemma BigZeros(b: Bpb, s: Bytes)
    requires |s| >= 512 && s[36..64] == BigBpbBytes(b)
    ensures Reader.Read2(s, 40) == Reader.Read2(s, 42) == 0
    ensures forall i :: 52 <= i < 64 ==> s[i] == 0
  {
    assert forall i :: 0 <= i < 28 ==> s[36 + i] == s[36..64][i];
    var t := BigBpbBytes(b);
    assert t[4..6] == Le2(0) && t[6..8] == Le2(0) && t[16..28] == Zeros(12);
    assert s[40] == t[4] && s[41] == t[5] && s[42] == t[6] && s[43] == t[7];
    forall i | 52 <= i < 64 ensures s[i] == 0 {
      assert s[i] == t[i - 36] == t[16..28][i - 52];
    }
  }

  /** The jump at the start leads to the boot code, in front of the signature. */
  lemma JumpLeadsToCode(v: Volume)
    requires v.Valid()
    ensures var s, entry := BootSector(v), 2 + BootSector(v)[1];
            s[0] == 0xeb && s[2] == 0x90 && entry + |BOOTCODE| <= 510 && s[entry..entry + |BOOTCODE|] == BOOTCODE
  {
    var s, hl := BootSector(v), HeaderLength(v.fat);
    BootLayout(v);
    assert s[..3] == [0xeb, hl - 2, 0x90];
    assert s[0] == s[..3][0] && s[1] == s[..3][1] && s[2] == s[..3][2];
    CodeAt(v);
  }

  lemma CodeAt(v: Volume)
    requires v.Valid()
    ensures var hl := HeaderLength(v.fat); BootSector(v)[hl..hl + |BOOTCODE|] == BOOTCODE
  {
    CodePlace(JumpBytes(v) + Parameters(v), BOOTCODE, Zeros(510 - HeaderLength(v.fat) - |BOOTCODE|), [0x55, 0xaa],
              Zeros(v.bpb.bytesPerSec - MINBPS));
  }

  lemma CodePlace(front: Bytes, code: Bytes, a: Bytes, b: Bytes, c: Bytes)
    ensures (front + code + a + b + c)[|front|..|front| + |code|] == code
  {
  }
}
