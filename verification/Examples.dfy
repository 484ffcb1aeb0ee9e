/** A frame byte by byte. */
module Examples {
  import opened Bytes
  import opened Deframing
  import opened CheckBits
  import Crc

  const FIRST: Block := [0x1B, 0x1B, 0x1B, 0x1B]
  const MARKER: seq<byte> := FIRST + [0x01, 0x01, 0x01, 0x01]
  const DATA: Block := [0x76, 0x05, 0x00, 0x00]
  const TRAILER: Block := [0x1A, 0x00, 0x22, 0x9F]

  /** A start marker and the smallest frame with data, as a meter would send it. */
  const TRANSMISSION: seq<byte> := MARKER + (DATA + (FIRST + TRAILER))

  lemma {:induction false} FirstDigested() returns (r: Reg)
    ensures r == Reg(Nib(true, false, true, true), Nib(false, false, true, true), Nib(true, true, false, false), Nib(true, true, true, false))
    ensures Crc.Update(Crc.INIT, FIRST) == r.Value()
  {
    hide Crc.Update, Reg.Value;
    r := Begin();
    r := NextTwo([], r, Reg(Nib(true, true, false, true), Nib(true, false, false, false), Nib(true, true, false, true), Nib(true, false, false, false)), 0x1B, 0x1B);
    assert r == Reg(Nib(true, true, false, false), Nib(true, false, true, true), Nib(true, true, true, true), Nib(false, true, false, false));
    r := NextTwo([] + [0x1B, 0x1B], r, Reg(Nib(true, true, false, true), Nib(true, false, false, false), Nib(true, true, false, true), Nib(true, false, false, false)), 0x1B, 0x1B);
    assert r == Reg(Nib(true, false, true, true), Nib(false, false, true, true), Nib(true, true, false, false), Nib(true, true, true, false));
    assert [] + [0x1B, 0x1B] + [0x1B, 0x1B] == FIRST;
  }

  lemma {:induction false} MarkerDigested() returns (r: Reg)
    ensures r == Reg(Nib(false, false, true, true), Nib(true, false, true, true), Nib(true, false, false, false), Nib(true, false, false, true))
    ensures Crc.Update(Crc.INIT, MARKER) == r.Value()
  {
    hide Crc.Update, Reg.Value;
    r := FirstDigested();
    r := NextTwo(FIRST, r, Reg(Nib(true, false, false, false), Nib(false, false, false, false), Nib(true, false, false, false), Nib(false, false, false, false)), 0x01, 0x01);
    assert r == Reg(Nib(true, true, true, true), Nib(true, false, false, true), Nib(true, true, false, false), Nib(true, true, false, false));
    r := NextTwo(FIRST + [0x01, 0x01], r, Reg(Nib(true, false, false, false), Nib(false, false, false, false), Nib(true, false, false, false), Nib(false, false, false, false)), 0x01, 0x01);
    assert r == Reg(Nib(false, false, true, true), Nib(true, false, true, true), Nib(true, false, false, false), Nib(true, false, false, true));
    assert FIRST + [0x01, 0x01] + [0x01, 0x01] == MARKER;
  }

  lemma {:induction false} DataDigested() returns (r: Reg)
    ensures r == Reg(Nib(true, true, false, true), Nib(false, false, false, true), Nib(false, false, true, false), Nib(true, false, false, true))
    ensures Crc.Update(Crc.INIT, MARKER + DATA) == r.Value()
  {
    hide Crc.Update, Reg.Value;
    r := MarkerDigested();
    r := NextTwo(MARKER, r, Reg(Nib(false, true, true, false), Nib(true, true, true, false), Nib(true, false, true, false), Nib(false, false, false, false)), 0x76, 0x05);
    assert r == Reg(Nib(false, true, false, false), Nib(false, true, false, false), Nib(false, false, false, false), Nib(false, false, false, true));
    r := NextTwo(MARKER + [0x76, 0x05], r, Reg(Nib(false, false, false, false), Nib(false, false, false, false), Nib(false, false, false, false), Nib(false, false, false, false)), 0x00, 0x00);
    assert r == Reg(Nib(true, true, false, true), Nib(false, false, false, true), Nib(false, false, true, false), Nib(true, false, false, true));
    assert MARKER + [0x76, 0x05] + [0x00, 0x00] == MARKER + DATA;
  }

  lemma {:induction false} EscapeDigested() returns (r: Reg)
    ensures r == Reg(Nib(true, true, true, true), Nib(false, false, false, true), Nib(true, true, true, false), Nib(true, true, true, false))
    ensures Crc.Update(Crc.INIT, MARKER + DATA + FIRST) == r.Value()
  {
    hide Crc.Update, Reg.Value;
    r := DataDigested();
    r := NextTwo(MARKER + DATA, r, Reg(Nib(true, true, false, true), Nib(true, false, false, false), Nib(true, true, false, true), Nib(true, false, false, false)), 0x1B, 0x1B);
    assert r == Reg(Nib(false, true, false, false), Nib(false, true, false, true), Nib(true, false, true, false), Nib(false, true, true, false));
    r := NextTwo(MARKER + DATA + [0x1B, 0x1B], r, Reg(Nib(true, true, false, true), Nib(true, false, false, false), Nib(true, true, false, true), Nib(true, false, false, false)), 0x1B, 0x1B);
    assert r == Reg(Nib(true, true, true, true), Nib(false, false, false, true), Nib(true, true, true, false), Nib(true, true, true, false));
    assert MARKER + DATA + [0x1B, 0x1B] + [0x1B, 0x1B] == MARKER + DATA + FIRST;
  }

  lemma {:induction false} TransmissionDigested()
    ensures Crc.Crc16(MARKER + DATA + FIRST + [0x1A, 0x00]) == 0x9F22
  {
    hide Crc.Update, Crc.Finalize, Reg.Value;
    var r := EscapeDigested();
    r := NextTwo(MARKER + DATA + FIRST, r, Reg(Nib(false, true, false, true), Nib(true, false, false, false), Nib(false, false, false, false), Nib(false, false, false, false)), 0x1A, 0x00);
    assert r == Reg(Nib(true, false, true, true), Nib(true, false, true, true), Nib(false, false, false, false), Nib(false, true, true, false));
    LastRegister();
    Crc.FinalizeIs(0x60DD);
  }

  lemma {:induction false} LastRegister()
    ensures Reg(Nib(true, false, true, true), Nib(true, false, true, true), Nib(false, false, false, false), Nib(false, true, true, false)).Value() == 0x60DD
  {
  }

  lemma {:induction false} MarkerIs()
    ensures MARKER == START && FIRST == ESCAPE && |MARKER| == 8
  {
  }

  lemma {:induction false} TrailerIs()
    ensures ReceivedCrc(TRAILER) == 0x9F22 && TRAILER[..2] == [0x1A, 0x00] && TRAILER != ESCAPE
  {
    SwappedBe([0x22, 0x9F]);
    assert TRAILER[2..] == [0x22, 0x9F];
  }

  /** It is accepted, and its four data bytes come out. */
  lemma {:induction false} TransmissionAccepted()
    ensures DecodeFrame(TRANSMISSION, 8) == Feed([0x76, 0x05, 0x00, 0x00], Ended, 20)
  {
    hide Crc.Update, Crc.Finalize, ReceivedCrc;
    MarkerIs();
    TrailerIs();
    var s := TRANSMISSION;
    assert At(s, 0, s);
    AtParts(s, 0, MARKER, DATA + (FIRST + TRAILER));
    AtParts(s, 8, DATA, FIRST + TRAILER);
    AtParts(s, 12, FIRST, TRAILER);
    var reg := Crc.Update(StartRegister(), DATA);
    var all := Crc.Update(reg, ESCAPE);
    Crc.UpdateConcat(Crc.INIT, MARKER, DATA);
    Crc.UpdateConcat(Crc.INIT, MARKER + DATA, FIRST);
    Crc.UpdateConcat(Crc.INIT, MARKER + DATA + FIRST, [0x1A, 0x00]);
    TransmissionDigested();
    assert Escape(all, DATA, TRAILER) == Last(0);
    hide Escape, StartRegister;
    assert DATA[..|DATA| - 0] == DATA && DATA != ESCAPE && [] + DATA == DATA;
    assert Decode(s, 16, all, true, DATA) == Feed(DATA, Ended, 20);
    assert Decode(s, 12, reg, false, DATA) == Feed(DATA, Ended, 20);
  }
}
