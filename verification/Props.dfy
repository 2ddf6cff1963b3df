/** The five property bytes, and the size of the buffer allocated for a dictionary. */
module PropsCodec {
  import opened Numeric
  import opened Stream

  const LZMA_DIC_MIN: U32 := 0x1000
  const LZMA_PROPS_SIZE := 5

  datatype Decoded = BadProps | Decoded(props: Props)

  /** The number that bytes say, the least significant first */
  function LittleEndian(b: seq<Byte>): nat {
    if b == [] then 0 else b[0] + 256 * LittleEndian(b[1..])
  }

  lemma FourBytes(b: seq<Byte>)
    requires |b| == 4
    ensures LittleEndian(b) == b[0] + 0x100 * b[1] as int + 0x1_0000 * b[2] as int + 0x100_0000 * b[3] as int
  {
    assert b[1..][1..] == b[2..] && b[2..][1..] == b[3..] && b[3..][1..] == [];
    assert LittleEndian([]) == 0;
    assert LittleEndian(b[3..]) == b[3];
    assert LittleEndian(b[2..]) == b[2] + 256 * LittleEndian(b[3..]);
    assert LittleEndian(b[1..]) == b[1] + 256 * LittleEndian(b[2..]);
  }

  /** LzmaProps_Decode */
  function DecodeProps(data: seq<Byte>): (r: Decoded)
    ensures r.Decoded? <==> |data| >= LZMA_PROPS_SIZE && data[0] < 9 * 5 * 5
    ensures r.Decoded? ==> PropsOk(r.props)
    ensures r.Decoded? ==> data[0] == (r.props.pb * 5 + r.props.lp) * 9 + r.props.lc
    ensures r.Decoded? ==> var size := LittleEndian(data[1..5]); r.props.dicSize == if size < 4096 then 4096 else size
  {
    if |data| < LZMA_PROPS_SIZE then BadProps
    else
      FourBytes(data[1..5]);
      var dicSize: U32 := data[1] as int + 0x100 * data[2] as int
                          + 0x1_0000 * data[3] as int + 0x100_0000 * data[4] as int;
      var d: int := data[0];
      if d >= 9 * 5 * 5 then BadProps
      else Decoded(Props(d % 9, d / 9 % 5, d / 9 / 5, if dicSize < LZMA_DIC_MIN then LZMA_DIC_MIN else dicSize))
  }

  /** The bytes an encoder writes for these properties. */
  function EncodeProps(p: Props): (data: seq<Byte>)
    requires PropsOk(p)
  {
    [(p.pb * 5 + p.lp) * 9 + p.lc, p.dicSize % 256, p.dicSize / 0x100 % 256,
     p.dicSize / 0x1_0000 % 256, p.dicSize / 0x100_0000]
  }

  /** Properties survive their encoding, whatever follows it. */
  lemma PropsRoundTrip(p: Props, more: seq<Byte>)
    requires PropsOk(p)
    ensures DecodeProps(EncodeProps(p) + more) == Decoded(p)
  {
    var d := (p.pb * 5 + p.lp) * 9 + p.lc;
    assert d % 9 == p.lc && d / 9 == p.pb * 5 + p.lp && d / 9 % 5 == p.lp && d / 9 / 5 == p.pb;
    var data := EncodeProps(p) + more;
    assert data[0] == d && data[1] == p.dicSize % 256 && data[2] == p.dicSize / 0x100 % 256;
    assert data[3] == p.dicSize / 0x1_0000 % 256 && data[4] == p.dicSize / 0x100_0000;
    Digits(p.dicSize);
    hide EncodeProps;
  }

  lemma Digits(v: U32)
    ensures v % 256 + 0x100 * (v / 0x100 % 256) + 0x1_0000 * (v / 0x1_0000 % 256) + 0x100_0000 * (v / 0x100_0000) == v
  {
    var a, b, c := v / 0x100, v / 0x1_0000, v / 0x100_0000;
    assert b == a / 0x100 && c == b / 0x100;
    assert v == 0x100 * a + v % 0x100 && a == 0x100 * b + a % 0x100 && b == 0x100 * c + b % 0x100;
  }
}
