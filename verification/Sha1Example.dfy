/** The example of FIPS 180-4: the digest of the message "abc", round by round. */
module Sha1Example {
  import opened Sha1

  const ABC: seq<Octet> := [0x61, 0x62, 0x63]

  // ----- the block

  lemma LengthOfAbc(v: nat)
    requires v == 24
    ensures LengthBytes(v)[7] == 0x18 && forall i | 0 <= i < 7 :: LengthBytes(v)[i] == 0
  {
    SmallOctets();
    assert v / 0x100_0000_0000_0000 == 0 && v / 0x1_0000_0000_0000 == 0 && v / 0x100_0000_0000 == 0;
    assert v / 0x1_0000_0000 == 0 && v / 0x100_0000 == 0 && v / 0x1_0000 == 0 && v / 0x100 == 0;
  }

  lemma SmallOctets()
    ensures OctetOf(24) == 0x18 && OctetOf(0) == 0
  {}

  lemma PaddedAbc(msg: seq<Octet>)
    requires msg == ABC
    ensures var p := Padded(msg);
            && |p| == 64 && p[0] == 0x61 && p[1] == 0x62 && p[2] == 0x63 && p[3] == 0x80 && p[63] == 0x18
            && forall i | 4 <= i < 63 :: p[i] == 0
  {
    var zeros, length := ZeroBytes(ZeroCount(|msg|)), LengthBytes(8 * |msg|);
    LengthOfAbc(8 * |msg|);
    assert |zeros| == 52 && Padded(msg) == msg + [0x80] + zeros + length;
  }

  /** Eight words in a row. */
  ghost predicate EightAt(
    ws: seq<Word>, t: nat, a: Word, b: Word, c: Word, d: Word, e: Word, f: Word, g: Word, h: Word)
  {
    && t + 8 <= |ws| && ws[t] == a && ws[t + 1] == b && ws[t + 2] == c && ws[t + 3] == d
    && ws[t + 4] == e && ws[t + 5] == f && ws[t + 6] == g && ws[t + 7] == h
  }

  /** The words of the one block. */
  ghost predicate BlockOfAbc(m: seq<Word>) {
    EightAt(m, 0, 0x61626380, 0, 0, 0, 0, 0, 0, 0) && EightAt(m, 8, 0, 0, 0, 0, 0, 0, 0, 0x18)
  }

  lemma BigEndianAbc()
    ensures BigEndian(0x61, 0x62, 0x63, 0x80) == 0x61626380 && BigEndian(0, 0, 0, 0) == 0
    ensures BigEndian(0, 0, 0, 0x18) == 0x18
  {}

  lemma WordsAbc(b: seq<Octet>)
    requires |b| == 64 && b[0] == 0x61 && b[1] == 0x62 && b[2] == 0x63 && b[3] == 0x80
    requires (forall i | 4 <= i < 63 :: b[i] == 0) && b[63] == 0x18
    ensures BlockOfAbc(Words(b))
  {
    BigEndianAbc();
    var m := Words(b);
    forall i | 1 <= i < 15 ensures m[i] == 0 {
      assert b[4 * i] == 0 && b[4 * i + 1] == 0 && b[4 * i + 2] == 0 && b[4 * i + 3] == 0;
    }
    assert b[60] == 0 && b[61] == 0 && b[62] == 0;
  }

  // ----- the schedule

  lemma NextWord(ws: seq<Word>, t: nat, a: Word, b: Word, c: Word, d: Word)
    requires Expanded(ws) && 16 <= t < |ws|
    requires ws[t - 3] == a && ws[t - 8] == b && ws[t - 14] == c && ws[t - 16] == d
    ensures ws[t] == Next(a, b, c, d)
  {
    assert ExpandsAt(ws, t);
  }

  lemma Words16(ws: seq<Word>)
    requires |ws| == 80 && Expanded(ws)
    requires EightAt(ws, 0, 0x61626380, 0, 0, 0, 0, 0, 0, 0)
    requires EightAt(ws, 8, 0, 0, 0, 0, 0, 0, 0, 0x18)
    ensures EightAt(ws, 16, 0xC2C4C700, 0, 0x30, 0x85898E01, 0, 0x60, 0xB131C03, 0x30)
  {
    NextWord(ws, 16, 0, 0, 0, 0x61626380);
    NextWord(ws, 17, 0, 0, 0, 0);
    NextWord(ws, 18, 0x18, 0, 0, 0);
    NextWord(ws, 19, 0xC2C4C700, 0, 0, 0);
    NextWord(ws, 20, 0, 0, 0, 0);
    NextWord(ws, 21, 0x30, 0, 0, 0);
    NextWord(ws, 22, 0x85898E01, 0, 0, 0);
    NextWord(ws, 23, 0, 0x18, 0, 0);
  }

  lemma Words24(ws: seq<Word>)
    requires |ws| == 80 && Expanded(ws)
    requires EightAt(ws, 8, 0, 0, 0, 0, 0, 0, 0, 0x18)
    requires EightAt(ws, 16, 0xC2C4C700, 0, 0x30, 0x85898E01, 0, 0x60, 0xB131C03, 0x30)
    ensures EightAt(ws, 24, 0x85898EC1, 0x16263806, 0, 0x180, 0x2C4C700C, 0xF0, 0x93AFB507, 0x5898E048)
  {
    NextWord(ws, 24, 0x60, 0xC2C4C700, 0, 0);
    NextWord(ws, 25, 0xB131C03, 0, 0, 0);
    NextWord(ws, 26, 0x30, 0x30, 0, 0);
    NextWord(ws, 27, 0x85898EC1, 0x85898E01, 0, 0);
    NextWord(ws, 28, 0x16263806, 0, 0, 0);
    NextWord(ws, 29, 0, 0x60, 0x18, 0);
    NextWord(ws, 30, 0x180, 0xB131C03, 0xC2C4C700, 0);
    NextWord(ws, 31, 0x2C4C700C, 0x30, 0, 0x18);
  }

  lemma Words32(ws: seq<Word>)
    requires |ws| == 80 && Expanded(ws)
    requires EightAt(ws, 16, 0xC2C4C700, 0, 0x30, 0x85898E01, 0, 0x60, 0xB131C03, 0x30)
    requires EightAt(ws, 24, 0x85898EC1, 0x16263806, 0, 0x180, 0x2C4C700C, 0xF0, 0x93AFB507, 0x5898E048)
    ensures EightAt(ws, 32, 0x8E9A9202, 0x600, 0xB131C0F0, 0x16263BC6, 0x4EBED41E, 0x626380A1, 0x16263806, 0x18C0)
  {
    NextWord(ws, 32, 0xF0, 0x85898EC1, 0x30, 0xC2C4C700);
    NextWord(ws, 33, 0x93AFB507, 0x16263806, 0x85898E01, 0);
    NextWord(ws, 34, 0x5898E048, 0, 0, 0x30);
    NextWord(ws, 35, 0x8E9A9202, 0x180, 0x60, 0x85898E01);
    NextWord(ws, 36, 0x600, 0x2C4C700C, 0xB131C03, 0);
    NextWord(ws, 37, 0xB131C0F0, 0xF0, 0x30, 0x60);
    NextWord(ws, 38, 0x16263BC6, 0x93AFB507, 0x85898EC1, 0xB131C03);
    NextWord(ws, 39, 0x4EBED41E, 0x5898E048, 0x16263806, 0x30);
  }

  lemma Words40(ws: seq<Word>)
    requires |ws| == 80 && Expanded(ws)
    requires EightAt(ws, 24, 0x85898EC1, 0x16263806, 0, 0x180, 0x2C4C700C, 0xF0, 0x93AFB507, 0x5898E048)
    requires EightAt(ws, 32, 0x8E9A9202, 0x600, 0xB131C0F0, 0x16263BC6, 0x4EBED41E, 0x626380A1, 0x16263806, 0x18C0)
    ensures EightAt(ws, 40, 0xD2E138C4, 0xF00, 0x3AFB5079, 0x898E04E5, 0xE2BA3C2B, 0x60C0, 0x53A37CD, 0x74458547)
  {
    NextWord(ws, 40, 0x626380A1, 0x8E9A9202, 0, 0x85898EC1);
    NextWord(ws, 41, 0x16263806, 0x600, 0x180, 0x16263806);
    NextWord(ws, 42, 0x18C0, 0xB131C0F0, 0x2C4C700C, 0);
    NextWord(ws, 43, 0xD2E138C4, 0x16263BC6, 0xF0, 0x180);
    NextWord(ws, 44, 0xF00, 0x4EBED41E, 0x93AFB507, 0x2C4C700C);
    NextWord(ws, 45, 0x3AFB5079, 0x626380A1, 0x5898E048, 0xF0);
    NextWord(ws, 46, 0x898E04E5, 0x16263806, 0x8E9A9202, 0x93AFB507);
    NextWord(ws, 47, 0xE2BA3C2B, 0x18C0, 0x600, 0x5898E048);
  }

  lemma Words48(ws: seq<Word>)
    requires |ws| == 80 && Expanded(ws)
    requires EightAt(ws, 32, 0x8E9A9202, 0x600, 0xB131C0F0, 0x16263BC6, 0x4EBED41E, 0x626380A1, 0x16263806, 0x18C0)
    requires EightAt(ws, 40, 0xD2E138C4, 0xF00, 0x3AFB5079, 0x898E04E5, 0xE2BA3C2B, 0x60C0, 0x53A37CD, 0x74458547)
    ensures EightAt(ws, 48, 0xDA9415ED, 0x26380A16, 0x626383A1, 0x4EBF54DE, 0x3835B44B, 0xF600, 0x1E84C7A3, 0x98E04D98)
  {
    NextWord(ws, 48, 0x60C0, 0xD2E138C4, 0xB131C0F0, 0x8E9A9202);
    NextWord(ws, 49, 0x53A37CD, 0xF00, 0x16263BC6, 0x600);
    NextWord(ws, 50, 0x74458547, 0x3AFB5079, 0x4EBED41E, 0xB131C0F0);
    NextWord(ws, 51, 0xDA9415ED, 0x898E04E5, 0x626380A1, 0x16263BC6);
    NextWord(ws, 52, 0x26380A16, 0xE2BA3C2B, 0x16263806, 0x4EBED41E);
    NextWord(ws, 53, 0x626383A1, 0x60C0, 0x18C0, 0x626380A1);
    NextWord(ws, 54, 0x4EBF54DE, 0x53A37CD, 0xD2E138C4, 0x16263806);
    NextWord(ws, 55, 0x3835B44B, 0x74458547, 0xF00, 0x18C0);
  }

  lemma Words56(ws: seq<Word>)
    requires |ws| == 80 && Expanded(ws)
    requires EightAt(ws, 40, 0xD2E138C4, 0xF00, 0x3AFB5079, 0x898E04E5, 0xE2BA3C2B, 0x60C0, 0x53A37CD, 0x74458547)
    requires EightAt(ws, 48, 0xDA9415ED, 0x26380A16, 0x626383A1, 0x4EBF54DE, 0x3835B44B, 0xF600, 0x1E84C7A3, 0x98E04D98)
    ensures EightAt(ws, 56, 0x651D16A0, 0x62658CA1, 0x458544D6, 0x44584CB7,
                    0x7BA06619, 0x6380AEA2, 0xAE55269, 0x627B49A1)
  {
    NextWord(ws, 56, 0xF600, 0xDA9415ED, 0x3AFB5079, 0xD2E138C4);
    NextWord(ws, 57, 0x1E84C7A3, 0x26380A16, 0x898E04E5, 0xF00);
    NextWord(ws, 58, 0x98E04D98, 0x626383A1, 0xE2BA3C2B, 0x3AFB5079);
    NextWord(ws, 59, 0x651D16A0, 0x4EBF54DE, 0x60C0, 0x898E04E5);
    NextWord(ws, 60, 0x62658CA1, 0x3835B44B, 0x53A37CD, 0xE2BA3C2B);
    NextWord(ws, 61, 0x458544D6, 0xF600, 0x74458547, 0x60C0);
    NextWord(ws, 62, 0x44584CB7, 0x1E84C7A3, 0xDA9415ED, 0x53A37CD);
    NextWord(ws, 63, 0x7BA06619, 0x98E04D98, 0x26380A16, 0x74458547);
  }

  lemma Words64(ws: seq<Word>)
    requires |ws| == 80 && Expanded(ws)
    requires EightAt(ws, 48, 0xDA9415ED, 0x26380A16, 0x626383A1, 0x4EBF54DE, 0x3835B44B, 0xF600, 0x1E84C7A3, 0x98E04D98)
    requires EightAt(ws, 56, 0x651D16A0, 0x62658CA1, 0x458544D6, 0x44584CB7,
                     0x7BA06619, 0x6380AEA2, 0xAE55269, 0x627B49A1)
    ensures EightAt(ws, 64, 0x7CD45C9D, 0xF0000, 0xFB50753A, 0xEC6765E8, 0xBA3C2BE2, 0x60C000, 0x3A37CD05, 0x458546F4)
  {
    NextWord(ws, 64, 0x6380AEA2, 0x651D16A0, 0x626383A1, 0xDA9415ED);
    NextWord(ws, 65, 0xAE55269, 0x62658CA1, 0x4EBF54DE, 0x26380A16);
    NextWord(ws, 66, 0x627B49A1, 0x458544D6, 0x3835B44B, 0x626383A1);
    NextWord(ws, 67, 0x7CD45C9D, 0x44584CB7, 0xF600, 0x4EBF54DE);
    NextWord(ws, 68, 0xF0000, 0x7BA06619, 0x1E84C7A3, 0x3835B44B);
    NextWord(ws, 69, 0xFB50753A, 0x6380AEA2, 0x98E04D98, 0xF600);
    NextWord(ws, 70, 0xEC6765E8, 0xAE55269, 0x651D16A0, 0x1E84C7A3);
    NextWord(ws, 71, 0xBA3C2BE2, 0x627B49A1, 0x62658CA1, 0x98E04D98);
  }

  lemma Words72(ws: seq<Word>)
    requires |ws| == 80 && Expanded(ws)
    requires EightAt(ws, 56, 0x651D16A0, 0x62658CA1, 0x458544D6, 0x44584CB7,
                     0x7BA06619, 0x6380AEA2, 0xAE55269, 0x627B49A1)
    requires EightAt(ws, 64, 0x7CD45C9D, 0xF0000, 0xFB50753A, 0xEC6765E8, 0xBA3C2BE2, 0x60C000, 0x3A37CD05, 0x458546F4)
    ensures EightAt(ws, 72, 0xB8599DD6, 0x380A1A26, 0x1E02203, 0xE7CC3456, 0xE6E60B69, 0xF60A00, 0x5795EF4F, 0x822E0879)
  {
    NextWord(ws, 72, 0x60C000, 0x7CD45C9D, 0x458544D6, 0x651D16A0);
    NextWord(ws, 73, 0x3A37CD05, 0xF0000, 0x44584CB7, 0x62658CA1);
    NextWord(ws, 74, 0x458546F4, 0xFB50753A, 0x7BA06619, 0x458544D6);
    NextWord(ws, 75, 0xB8599DD6, 0xEC6765E8, 0x6380AEA2, 0x44584CB7);
    NextWord(ws, 76, 0x380A1A26, 0xBA3C2BE2, 0xAE55269, 0x7BA06619);
    NextWord(ws, 77, 0x1E02203, 0x60C000, 0x627B49A1, 0x6380AEA2);
    NextWord(ws, 78, 0xE7CC3456, 0x3A37CD05, 0x7CD45C9D, 0xAE55269);
    NextWord(ws, 79, 0xE6E60B69, 0x458546F4, 0xF0000, 0x627B49A1);
  }

  // ----- the rounds

  lemma NextRound(ws: seq<Word>, t: nat, s: State, w: Word) returns (s': State)
    requires t < |ws| && Rounds(ws, INITIAL, t) == s && ws[t] == w
    ensures s' == Round(t, s, w) && Rounds(ws, INITIAL, t + 1) == s'
  {
    s' := Round(t, s, w);
  }

  lemma Rounds8(ws: seq<Word>)
    requires EightAt(ws, 0, 0x61626380, 0, 0, 0, 0, 0, 0, 0)
    requires Rounds(ws, INITIAL, 0) == State(0x67452301, 0xEFCDAB89, 0x98BADCFE, 0x10325476, 0xC3D2E1F0)
    ensures Rounds(ws, INITIAL, 8) == State(0x9E8C07D4, 0x993E30C1, 0x0FF1F290, 0xB3F52677, 0xF3763846)
  {
    var s := State(0x67452301, 0xEFCDAB89, 0x98BADCFE, 0x10325476, 0xC3D2E1F0);
    s := NextRound(ws, 0, s, 0x61626380);
    s := NextRound(ws, 1, s, 0);
    s := NextRound(ws, 2, s, 0);
    s := NextRound(ws, 3, s, 0);
    s := NextRound(ws, 4, s, 0);
    s := NextRound(ws, 5, s, 0);
    s := NextRound(ws, 6, s, 0);
    s := NextRound(ws, 7, s, 0);
  }

  lemma Rounds16(ws: seq<Word>)
    requires EightAt(ws, 8, 0, 0, 0, 0, 0, 0, 0, 0x18)
    requires Rounds(ws, INITIAL, 8) == State(0x9E8C07D4, 0x993E30C1, 0x0FF1F290, 0xB3F52677, 0xF3763846)
    ensures Rounds(ws, INITIAL, 16) == State(0x20BDD62F, 0x196BEE77, 0x644A3DA5, 0x1181ED99, 0x18C623F9)
  {
    var s := State(0x9E8C07D4, 0x993E30C1, 0x0FF1F290, 0xB3F52677, 0xF3763846);
    s := NextRound(ws, 8, s, 0);
    s := NextRound(ws, 9, s, 0);
    s := NextRound(ws, 10, s, 0);
    s := NextRound(ws, 11, s, 0);
    s := NextRound(ws, 12, s, 0);
    s := NextRound(ws, 13, s, 0);
    s := NextRound(ws, 14, s, 0);
    s := NextRound(ws, 15, s, 0x18);
  }

  lemma Rounds24(ws: seq<Word>)
    requires EightAt(ws, 16, 0xC2C4C700, 0, 0x30, 0x85898E01, 0, 0x60, 0xB131C03, 0x30)
    requires Rounds(ws, INITIAL, 16) == State(0x20BDD62F, 0x196BEE77, 0x644A3DA5, 0x1181ED99, 0x18C623F9)
    ensures Rounds(ws, INITIAL, 24) == State(0xD541F12D, 0x21283486, 0x0CE88EFF, 0x868DEC32, 0x7F67875F)
  {
    var s := State(0x20BDD62F, 0x196BEE77, 0x644A3DA5, 0x1181ED99, 0x18C623F9);
    s := NextRound(ws, 16, s, 0xC2C4C700);
    s := NextRound(ws, 17, s, 0);
    s := NextRound(ws, 18, s, 0x30);
    s := NextRound(ws, 19, s, 0x85898E01);
    s := NextRound(ws, 20, s, 0);
    s := NextRound(ws, 21, s, 0x60);
    s := NextRound(ws, 22, s, 0xB131C03);
    s := NextRound(ws, 23, s, 0x30);
  }

  lemma Rounds32(ws: seq<Word>)
    requires EightAt(ws, 24, 0x85898EC1, 0x16263806, 0, 0x180, 0x2C4C700C, 0xF0, 0x93AFB507, 0x5898E048)
    requires Rounds(ws, INITIAL, 24) == State(0xD541F12D, 0x21283486, 0x0CE88EFF, 0x868DEC32, 0x7F67875F)
    ensures Rounds(ws, INITIAL, 32) == State(0x3B845D33, 0x1267B407, 0x717EEBD7, 0xA0DC2D4B, 0xD2AA1365)
  {
    var s := State(0xD541F12D, 0x21283486, 0x0CE88EFF, 0x868DEC32, 0x7F67875F);
    s := NextRound(ws, 24, s, 0x85898EC1);
    s := NextRound(ws, 25, s, 0x16263806);
    s := NextRound(ws, 26, s, 0);
    s := NextRound(ws, 27, s, 0x180);
    s := NextRound(ws, 28, s, 0x2C4C700C);
    s := NextRound(ws, 29, s, 0xF0);
    s := NextRound(ws, 30, s, 0x93AFB507);
    s := NextRound(ws, 31, s, 0x5898E048);
  }

  lemma Rounds40(ws: seq<Word>)
    requires EightAt(ws, 32, 0x8E9A9202, 0x600, 0xB131C0F0, 0x16263BC6, 0x4EBED41E, 0x626380A1, 0x16263806, 0x18C0)
    requires Rounds(ws, INITIAL, 32) == State(0x3B845D33, 0x1267B407, 0x717EEBD7, 0xA0DC2D4B, 0xD2AA1365)
    ensures Rounds(ws, INITIAL, 40) == State(0x32DE1CBA, 0x4C986405, 0xF718E5CF, 0x03D447F6, 0xF72EEC32)
  {
    var s := State(0x3B845D33, 0x1267B407, 0x717EEBD7, 0xA0DC2D4B, 0xD2AA1365);
    s := NextRound(ws, 32, s, 0x8E9A9202);
    s := NextRound(ws, 33, s, 0x600);
    s := NextRound(ws, 34, s, 0xB131C0F0);
    s := NextRound(ws, 35, s, 0x16263BC6);
    s := NextRound(ws, 36, s, 0x4EBED41E);
    s := NextRound(ws, 37, s, 0x626380A1);
    s := NextRound(ws, 38, s, 0x16263806);
    s := NextRound(ws, 39, s, 0x18C0);
  }

  lemma Rounds48(ws: seq<Word>)
    requires EightAt(ws, 40, 0xD2E138C4, 0xF00, 0x3AFB5079, 0x898E04E5, 0xE2BA3C2B, 0x60C0, 0x53A37CD, 0x74458547)
    requires Rounds(ws, INITIAL, 40) == State(0x32DE1CBA, 0x4C986405, 0xF718E5CF, 0x03D447F6, 0xF72EEC32)
    ensures Rounds(ws, INITIAL, 48) == State(0xBEAD02CA, 0xA01B846C, 0x8714787C, 0x503CA382, 0xFB86C6AB)
  {
    var s := State(0x32DE1CBA, 0x4C986405, 0xF718E5CF, 0x03D447F6, 0xF72EEC32);
    s := NextRound(ws, 40, s, 0xD2E138C4);
    s := NextRound(ws, 41, s, 0xF00);
    s := NextRound(ws, 42, s, 0x3AFB5079);
    s := NextRound(ws, 43, s, 0x898E04E5);
    s := NextRound(ws, 44, s, 0xE2BA3C2B);
    s := NextRound(ws, 45, s, 0x60C0);
    s := NextRound(ws, 46, s, 0x53A37CD);
    s := NextRound(ws, 47, s, 0x74458547);
  }

  lemma Rounds56(ws: seq<Word>)
    requires EightAt(ws, 48, 0xDA9415ED, 0x26380A16, 0x626383A1, 0x4EBF54DE, 0x3835B44B, 0xF600, 0x1E84C7A3, 0x98E04D98)
    requires Rounds(ws, INITIAL, 48) == State(0xBEAD02CA, 0xA01B846C, 0x8714787C, 0x503CA382, 0xFB86C6AB)
    ensures Rounds(ws, INITIAL, 56) == State(0x5E6456AF, 0x7B71F76D, 0x09FA7C76, 0x792410DB, 0x8E11EB59)
  {
    var s := State(0xBEAD02CA, 0xA01B846C, 0x8714787C, 0x503CA382, 0xFB86C6AB);
    s := NextRound(ws, 48, s, 0xDA9415ED);
    s := NextRound(ws, 49, s, 0x26380A16);
    s := NextRound(ws, 50, s, 0x626383A1);
    s := NextRound(ws, 51, s, 0x4EBF54DE);
    s := NextRound(ws, 52, s, 0x3835B44B);
    s := NextRound(ws, 53, s, 0xF600);
    s := NextRound(ws, 54, s, 0x1E84C7A3);
    s := NextRound(ws, 55, s, 0x98E04D98);
  }

  lemma Rounds64(ws: seq<Word>)
    requires EightAt(ws, 56, 0x651D16A0, 0x62658CA1, 0x458544D6, 0x44584CB7,
                     0x7BA06619, 0x6380AEA2, 0xAE55269, 0x627B49A1)
    requires Rounds(ws, INITIAL, 56) == State(0x5E6456AF, 0x7B71F76D, 0x09FA7C76, 0x792410DB, 0x8E11EB59)
    ensures Rounds(ws, INITIAL, 64) == State(0x6B61C9E1, 0xB66C020B, 0x9523272C, 0xF5D5B051, 0x8FD4B796)
  {
    var s := State(0x5E6456AF, 0x7B71F76D, 0x09FA7C76, 0x792410DB, 0x8E11EB59);
    s := NextRound(ws, 56, s, 0x651D16A0);
    s := NextRound(ws, 57, s, 0x62658CA1);
    s := NextRound(ws, 58, s, 0x458544D6);
    s := NextRound(ws, 59, s, 0x44584CB7);
    s := NextRound(ws, 60, s, 0x7BA06619);
    s := NextRound(ws, 61, s, 0x6380AEA2);
    s := NextRound(ws, 62, s, 0xAE55269);
    s := NextRound(ws, 63, s, 0x627B49A1);
  }

  lemma Rounds72(ws: seq<Word>)
    requires EightAt(ws, 64, 0x7CD45C9D, 0xF0000, 0xFB50753A, 0xEC6765E8, 0xBA3C2BE2, 0x60C000, 0x3A37CD05, 0x458546F4)
    requires Rounds(ws, INITIAL, 64) == State(0x6B61C9E1, 0xB66C020B, 0x9523272C, 0xF5D5B051, 0x8FD4B796)
    ensures Rounds(ws, INITIAL, 72) == State(0x39859DE7, 0xC199F8C7, 0x8FC96230, 0x125C24F0, 0xDE37534A)
  {
    var s := State(0x6B61C9E1, 0xB66C020B, 0x9523272C, 0xF5D5B051, 0x8FD4B796);
    s := NextRound(ws, 64, s, 0x7CD45C9D);
    s := NextRound(ws, 65, s, 0xF0000);
    s := NextRound(ws, 66, s, 0xFB50753A);
    s := NextRound(ws, 67, s, 0xEC6765E8);
    s := NextRound(ws, 68, s, 0xBA3C2BE2);
    s := NextRound(ws, 69, s, 0x60C000);
    s := NextRound(ws, 70, s, 0x3A37CD05);
    s := NextRound(ws, 71, s, 0x458546F4);
  }

  lemma Rounds80(ws: seq<Word>)
    requires EightAt(ws, 72, 0xB8599DD6, 0x380A1A26, 0x1E02203, 0xE7CC3456,
                     0xE6E60B69, 0xF60A00, 0x5795EF4F, 0x822E0879)
    requires Rounds(ws, INITIAL, 72) == State(0x39859DE7, 0xC199F8C7, 0x8FC96230, 0x125C24F0, 0xDE37534A)
    ensures Rounds(ws, INITIAL, 80) == State(0x42541B35, 0x5738D5E1, 0x21834873, 0x681E6DF6, 0xD8FDF6AD)
  {
    var s := State(0x39859DE7, 0xC199F8C7, 0x8FC96230, 0x125C24F0, 0xDE37534A);
    s := NextRound(ws, 72, s, 0xB8599DD6);
    s := NextRound(ws, 73, s, 0x380A1A26);
    s := NextRound(ws, 74, s, 0x1E02203);
    s := NextRound(ws, 75, s, 0xE7CC3456);
    s := NextRound(ws, 76, s, 0xE6E60B69);
    s := NextRound(ws, 77, s, 0xF60A00);
    s := NextRound(ws, 78, s, 0x5795EF4F);
    s := NextRound(ws, 79, s, 0x822E0879);
  }

  lemma RoundsOfAbc(ws: seq<Word>)
    requires |ws| == 80 && Expanded(ws) && BlockOfAbc(ws)
    ensures Rounds(ws, INITIAL, 80) == State(0x42541B35, 0x5738D5E1, 0x21834873, 0x681E6DF6, 0xD8FDF6AD)
  {
    Words16(ws);
    Words24(ws);
    Words32(ws);
    Words40(ws);
    Words48(ws);
    Words56(ws);
    Words64(ws);
    Words72(ws);
    Rounds8(ws);
    Rounds16(ws);
    Rounds24(ws);
    Rounds32(ws);
    Rounds40(ws);
    Rounds48(ws);
    Rounds56(ws);
    Rounds64(ws);
    Rounds72(ws);
    Rounds80(ws);
  }

  // ----- the digest

  lemma CompressAbc(m: seq<Word>)
    requires |m| == 16 && BlockOfAbc(m)
    ensures Compress(INITIAL, m) == State(0xA9993E36, 0x4706816A, 0xBA3E2571, 0x7850C26C, 0x9CD0D89D)
  {
    var n := 5 * |m|;
    var ws := Schedule(m, n);
    ScheduleExpands(m, n);
    assert forall i | 0 <= i < 16 :: ws[i] == ws[..16][i];
    RoundsOfAbc(ws);
  }

  lemma AbsorbAbc(p: seq<Octet>)
    requires |p| == 64 && BlockOfAbc(Words(p))
    ensures Absorb(INITIAL, p) == State(0xA9993E36, 0x4706816A, 0xBA3E2571, 0x7850C26C, 0x9CD0D89D)
  {
    assert p[..64] == p && |p[64..]| == 0;
    CompressAbc(Words(p));
  }

  lemma BytesOfAbc()
    ensures WordBytes(0xA9993E36) == [0xA9, 0x99, 0x3E, 0x36] && WordBytes(0x4706816A) == [0x47, 0x06, 0x81, 0x6A]
    ensures WordBytes(0xBA3E2571) == [0xBA, 0x3E, 0x25, 0x71] && WordBytes(0x7850C26C) == [0x78, 0x50, 0xC2, 0x6C]
    ensures WordBytes(0x9CD0D89D) == [0x9C, 0xD0, 0xD8, 0x9D]
  {}

  /** The digest of "abc" is the one that the standard gives. */
  lemma DigestOfAbc()
    ensures Digest([0x61, 0x62, 0x63])
         == [0xA9, 0x99, 0x3E, 0x36, 0x47, 0x06, 0x81, 0x6A, 0xBA, 0x3E,
             0x25, 0x71, 0x78, 0x50, 0xC2, 0x6C, 0x9C, 0xD0, 0xD8, 0x9D]
  {
    PaddedAbc(ABC);
    WordsAbc(Padded(ABC));
    AbsorbAbc(Padded(ABC));
    BytesOfAbc();
  }
}
