/** Numbers from the appendices of FIPS 197.  The entries of the S-box that they use are
    hypotheses; the box itself is a parameter everywhere. */
module AesExamples {
  import opened AesCipher
  import opened AesField
  import opened AesKeys
  import opened AesTables
  import opened AesWords

  /** Appendix A.1, word 4: the key word before it is 09cf4f3c. */
  lemma FirstMask128(b: Boxes)
    requires b.s(0xcf) == 0x8a && b.s(0x4f) == 0x84 && b.s(0x3c) == 0xeb && b.s(0x09) == 0x01
    ensures Mask(b, 4, 4, 0x09cf4f3c) == 0x8b84eb01
  {
    assert Rcon(1) == 0x01000000 by { RconTable(0); }
  }

  /** Appendix A.3, words 8 and 12: the only words of a 256-bit key that are rotated, or
      substituted without being rotated. */
  lemma Masks256(b: Boxes)
    requires b.s(0x14) == 0xfa && b.s(0xdf) == 0x9e && b.s(0xf4) == 0xbf && b.s(0x09) == 0x01
    requires b.s(0x20) == 0xb7 && b.s(0x67) == 0x85 && b.s(0xfc) == 0xb0 && b.s(0xde) == 0x1d
    ensures Mask(b, 8, 8, 0x0914dff4) == 0xfb9ebf01 && Mask(b, 8, 12, 0x2067fcde) == 0xb785b01d
  {
    assert Rcon(1) == 0x01000000 by { RconTable(0); }
  }

  /** Appendix A.1: the first word that is not a word of the key. */
  lemma ExpandedWord(b: Boxes)
    requires b.s(0xcf) == 0x8a && b.s(0x4f) == 0x84 && b.s(0x3c) == 0xeb && b.s(0x09) == 0x01
    ensures var key: seq<bv8> := [0x2b, 0x7e, 0x15, 0x16, 0x28, 0xae, 0xd2, 0xa6,
                                  0xab, 0xf7, 0x15, 0x88, 0x09, 0xcf, 0x4f, 0x3c];
            Expand(b, 4, key, 5)[4] == 0xa0fafe17
  {
    hide Mask, Expand;
    var key: seq<bv8> := [0x2b, 0x7e, 0x15, 0x16, 0x28, 0xae, 0xd2, 0xa6,
                          0xab, 0xf7, 0x15, 0x88, 0x09, 0xcf, 0x4f, 0x3c];
    ExpandNext(b, 4, key, 4);
    ExpandBegins(b, 4, key, 4, 0);
    ExpandBegins(b, 4, key, 4, 3);
    assert KeyWord(key, 0) == 0x2b7e1516 && KeyWord(key, 3) == 0x09cf4f3c;
    FirstMask128(b);
  }

  /** Appendix B, the key addition before the first round. */
  lemma FirstAddition()
    ensures var input: Block := [0x32, 0x43, 0xf6, 0xa8, 0x88, 0x5a, 0x30, 0x8d,
                                 0x31, 0x31, 0x98, 0xa2, 0xe0, 0x37, 0x07, 0x34];
            var key: Words := Words(0x2b7e1516, 0x28aed2a6, 0xabf71588, 0x09cf4f3c);
            var start: Block := [0x19, 0x3d, 0xe3, 0xbe, 0xa0, 0xf4, 0xe2, 0x2b,
                                 0x9a, 0xc6, 0x8d, 0x2a, 0xe9, 0xf8, 0x48, 0x08];
            BytesOf(AddRoundKey(StateOf(input), ToState(key))) == start
  {
  }

  /** Appendix B, the first round from the substituted state on. */
  lemma FirstRound(b: Boxes, start: State)
    requires var subbed: Block := [0xd4, 0x27, 0x11, 0xae, 0xe0, 0xbf, 0x98, 0xf1,
                                   0xb8, 0xb4, 0x5d, 0xe5, 0x1e, 0x41, 0x52, 0x30];
             SubBytes(b.s, start) == StateOf(subbed)
    ensures var key: Words := Words(0xa0fafe17, 0x88542cb1, 0x23a33939, 0x2a6c7605);
            var next: Block := [0xa4, 0x9c, 0x7f, 0xf2, 0x68, 0x9f, 0x35, 0x2b,
                                0x6b, 0x5b, 0xea, 0x43, 0x02, 0x6a, 0x50, 0x49];
            BytesOf(Round(b, start, ToState(key))) == next
  {
  }
}
