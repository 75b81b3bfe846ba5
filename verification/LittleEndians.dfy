/** Numbers in bytes, the lowest byte first. */
module LittleEndians {

  // The lowest bytes of a number in two's complement
  function LittleEndian(value: int, size: nat): (bytes: seq<int>)
    ensures |bytes| == size
    decreases size
  {
    if size == 0 then [] else [value % 256] + LittleEndian(value / 256, size - 1)
  }

  function Zeros(n: nat): (bytes: seq<int>)
    ensures |bytes| == n && forall i :: 0 <= i < n ==> bytes[i] == 0
  {
    seq(n, _ => 0)
  }

  function FromBytes(bytes: seq<int>): int
    decreases |bytes|
  {
    if |bytes| == 0 then 0 else bytes[0] + 256 * FromBytes(bytes[1..])
  }

  // How many numbers there are of so many bytes
  function Range(size: nat): (r: int)
    ensures r > 0
    decreases size
  {
    if size == 0 then 1 else 256 * Range(size - 1)
  }

  function Signed(bytes: seq<int>): int {
    var v := FromBytes(bytes);
    if 2 * v < Range(|bytes|) then v else v - Range(|bytes|)
  }

  // The bytes of a number hold it up to a multiple of the range.
  lemma {:induction false} BytesOf(value: int, size: nat) returns (q: int)
    ensures 0 <= FromBytes(LittleEndian(value, size)) < Range(size)
    ensures value == FromBytes(LittleEndian(value, size)) + q * Range(size)
    decreases size
  {
    if size == 0 {
      q := value;
    } else {
      q := BytesOf(value / 256, size - 1);
      var rest := FromBytes(LittleEndian(value / 256, size - 1));
      assert LittleEndian(value, size)[1..] == LittleEndian(value / 256, size - 1);
      assert value == value % 256 + 256 * (rest + q * Range(size - 1));
      assert 256 * (q * Range(size - 1)) == q * (256 * Range(size - 1));
    }
  }

  // Reading the field back gives the number up to a multiple of the range.
  lemma SignedBack(value: int, size: nat) returns (q: int)
    ensures Signed(LittleEndian(value, size)) == value + q * Range(size)
  {
    var q0 := BytesOf(value, size);
    q := if 2 * FromBytes(LittleEndian(value, size)) < Range(size) then -q0 else -q0 - 1;
    assert (-q0 - 1) * Range(size) == -q0 * Range(size) - Range(size);
  }

  // A number that fits is read back.
  lemma SignedIsBack(value: int, size: nat)
    requires -Range(size) <= 2 * value < Range(size)
    ensures Signed(LittleEndian(value, size)) == value
  {
    hide Range, FromBytes, LittleEndian;
    var v := if value >= 0 then value else value + 1 * Range(size);
    SameField(value, 1, size);
    UnsignedBack(v, size);
  }

  // So numbers that differ by a multiple of the range are the same in a field.
  lemma {:induction false} SameField(value: int, q: int, size: nat)
    ensures LittleEndian(value + q * Range(size), size) == LittleEndian(value, size)
    decreases size
  {
    if size > 0 {
      var step := q * Range(size - 1);
      assert q * Range(size) == 256 * step;
      assert (value + 256 * step) % 256 == value % 256 && (value + 256 * step) / 256 == value / 256 + step;
      SameField(value / 256, q, size - 1);
    }
  }

  lemma {:induction false} UnsignedBack(value: int, size: nat)
    requires 0 <= value < Range(size)
    ensures FromBytes(LittleEndian(value, size)) == value
    decreases size
  {
    if size > 0 {
      assert LittleEndian(value, size)[1..] == LittleEndian(value / 256, size - 1);
      UnsignedBack(value / 256, size - 1);
    }
  }
}
