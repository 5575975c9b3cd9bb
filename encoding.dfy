/**
 * The `Encoding` type of encoding/base85/encoding.go and its methods, which
 * follow the loops of the source and are proved equal to the specification
 * functions of `Base85Spec`.
 */
module Base85 {
  import opened Base85Spec

  /** A base85 codec bound to a symbol table; position i holds the symbol of digit i. */
  datatype Encoding = Encoding(representation: seq<byte>)
  {
    /** Cell `i` of `a`: names the cells that a write leaves alone. */
    static ghost function Cell(a: array<byte>, i: nat): byte
      requires i < a.Length
      reads a
    {
      a[i]
    }

    /** Encodes `data`, 4 bytes to 5 symbols; fails unless |data| is a multiple of 4. */
    method Encode(data: seq<byte>) returns (r: Result<seq<byte>>)
      requires |representation| >= 85
      ensures r == Encoded(representation, data)
    {
      var dataLen := |data|;
      if dataLen % 4 != 0 {
        return Failure(InvalidLength);
      }
      var strLen := 5 * dataLen / 4;
      var strBytes := new byte[strLen];
      ghost var total := dataLen / 4;
      assert dataLen == 4 * total && strLen == 5 * total;
      var dataCount, strCount, value: nat := 0, 0, 0;
      ghost var done: seq<byte>, group: seq<byte> := [], [];
      ghost var out: seq<byte> := [];
      EncodingStart(representation, data);
      while dataCount < dataLen
        invariant dataCount <= dataLen && strCount <= strLen && 4 * strCount == 5 * |done|
        invariant strBytes[..strCount] == out
        invariant EncodingAt(representation, data, dataCount, done, group, value, out)
      {
        ghost var open, accumulated := group, value;
        group := group + [data[dataCount]];
        value := value * 256 + data[dataCount] as nat;
        dataCount := dataCount + 1;
        GroupEnd(|done|, dataCount, 4);
        if dataCount % 4 == 0 {
          EncodingGroup(representation, data, dataCount - 1, done, open, accumulated, out);
          strCount := PutSymbols(strBytes, strCount, value);
          out := out + Symbols(representation, GroupDigits(value));
          value := 0;
          done, group := done + group, [];
        } else {
          EncodingStep(representation, data, dataCount - 1, done, open, accumulated, out);
        }
      }
      EncodingEnds(representation, data, done, group, value, out);
      return Success(strBytes[..strLen]);
    }

    /** Writes the 5 symbols of the digits of `value`, most significant first, at `strCount`. */
    method PutSymbols(strBytes: array<byte>, strCount: nat, value: nat) returns (next: nat)
      requires |representation| >= 85 && strCount + 5 <= strBytes.Length
      modifies strBytes
      ensures next == strCount + 5
      ensures strBytes[..next] == old(strBytes[..strCount]) + Symbols(representation, GroupDigits(value))
      ensures forall i {:trigger Cell(strBytes, i)} :: next <= i < strBytes.Length ==> Cell(strBytes, i) == old(Cell(strBytes, i))
    {
      next := strCount;
      ghost var k := 0;
      var divisor := 85 * 85 * 85 * 85;
      while divisor != 0
        invariant k <= 5 && next == strCount + k
        invariant divisor == if k < 5 then Divisors85[k] else 0
        invariant strBytes[..strCount] == old(strBytes[..strCount])
        invariant forall i :: 0 <= i < k ==> strBytes[strCount + i] == representation[GroupDigits(value)[i]]
        invariant forall i :: next <= i < strBytes.Length ==> strBytes[i] == old(strBytes[i])
      {
        strBytes[next] := representation[value / divisor % 85];
        next := next + 1;
        if k < 4 {
          Divisor85Step(k);
        }
        divisor := divisor / 85;
        k := k + 1;
      }
      Filled(strBytes[..next], old(strBytes[..strCount]), representation, GroupDigits(value));
    }

    /** Decodes `str`, 5 symbols to 4 bytes; fails on a length that is not a
        multiple of 5 and on the first symbol that is not in the table. */
    method Decode(str: seq<byte>) returns (r: Result<seq<byte>>)
      ensures r == Decoded(representation, str)
    {
      var strBytes := str;
      var strLen := |strBytes|;
      if strLen % 5 != 0 {
        return Failure(InvalidLength);
      }
      var dataLen := 4 * strLen / 5;
      var data := new byte[dataLen];
      ghost var total := strLen / 5;
      assert strLen == 5 * total && dataLen == 4 * total;
      var dataCount, strCount, value: nat := 0, 0, 0;
      ghost var done: seq<nat>, group: seq<nat> := [], [];
      ghost var out: seq<byte> := [];
      DecodingStart(representation, str);
      while strCount < strLen
        invariant strCount <= strLen && dataCount <= dataLen && 5 * dataCount == 4 * |done|
        invariant data[..dataCount] == out
        invariant DecodingAt(representation, str, strCount, done, group, value, out)
      {
        var rep := strBytes[strCount];
        var repVal := RepToVal(rep);
        if repVal.Failure? {
          DecodingFails(representation, str, strCount, done, group, value, out);
          return Failure(repVal.error);
        }
        ghost var n, open, accumulated := strCount, group, value;
        group := group + [repVal.value];
        value := value * 85 + repVal.value;
        strCount := strCount + 1;
        GroupEnd(|done|, strCount, 5);
        if strCount % 5 == 0 {
          DecodingGroup(representation, str, n, done, open, accumulated, out, repVal.value);
          dataCount := PutBytes(data, dataCount, value);
          out := out + GroupBytes(value);
          value := 0;
          done, group := done + group, [];
        } else {
          DecodingStep(representation, str, n, done, open, accumulated, out, repVal.value);
        }
      }
      DecodingEnds(representation, str, done, group, value, out);
      return Success(data[..dataLen]);
    }

    /** Writes the 4 bytes `value / 256^k % 256`, k = 3 down to 0, at `dataCount`. */
    static method PutBytes(data: array<byte>, dataCount: nat, value: nat) returns (next: nat)
      requires dataCount + 4 <= data.Length
      modifies data
      ensures next == dataCount + 4
      ensures data[..next] == old(data[..dataCount]) + GroupBytes(value)
      ensures forall i {:trigger Cell(data, i)} :: next <= i < data.Length ==> Cell(data, i) == old(Cell(data, i))
    {
      next := dataCount;
      ghost var k := 0;
      var divisor := 256 * 256 * 256;
      while divisor != 0
        invariant k <= 4 && next == dataCount + k
        invariant divisor == if k < 4 then Divisors256[k] else 0
        invariant data[..dataCount] == old(data[..dataCount])
        invariant forall i :: 0 <= i < k ==> data[dataCount + i] == GroupBytes(value)[i]
        invariant forall i :: next <= i < data.Length ==> data[i] == old(data[i])
      {
        data[next] := (value / divisor % 256) as byte;
        next := next + 1;
        if k < 3 {
          Divisor256Step(k);
        }
        divisor := divisor / 256;
        k := k + 1;
      }
      assert data[..next] == old(data[..dataCount]) + GroupBytes(value);
    }

    /** The digit of symbol `b`: its first position in the table. */
    method RepToVal(b: byte) returns (r: Result<nat>)
      ensures r == DigitOf(representation, b)
    {
      DigitOfFirst(representation, b);
      for i := 0 to |representation|
        invariant forall j :: 0 <= j < i ==> representation[j] != b
      {
        if b == representation[i] {
          return Success(i);
        }
      }
      return Failure(InvalidSymbol(b));
    }
  }
}
