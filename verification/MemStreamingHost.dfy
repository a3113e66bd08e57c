/** mem_streaming/mem_streaming.cpp: the local memory the host gives the kernel local_mem under LARG. */
module MemStreamingHost {
  import opened Arithmetic
  import opened MemStreaming

  /** sizeof(dtype) as the kernel is compiled: a float or a vector of floats. */
  function CellBytes(vec: nat): nat {
    4 * Lanes(vec)
  }

  /** The element size in the arguments (lines 185 to 208); VEC 4 shares the one of VEC 3. */
  function ArgumentCellBytes(vec: nat): nat {
    match vec
    case 1 => 8
    case 2 => 16
    case 3 => 32
    case 4 => 32
    case _ => 4
  }

  /** The sizes passed for s1 and s2. */
  function LocalArguments(vec: nat, elements: nat): (nat, nat) {
    (ArgumentCellBytes(vec) * elements, ArgumentCellBytes(vec) * elements * 2)
  }

  /** The bytes passed are those of the two arrays but for VEC 4, where they are half of them. */
  lemma BytesPassed(vec: nat, elements: nat)
    requires vec <= 4
    ensures CellBytes(vec) == 4 * Power2(vec)
    ensures vec != 4 ==>
              LocalArguments(vec, elements) == (4 * Power2(vec) * elements, 4 * Power2(vec) * (2 * elements))
    ensures vec == 4 ==> LocalArguments(vec, elements) == (32 * elements, 64 * elements) && CellBytes(vec) == 64
  {
    LanesArePower(vec);
    MulDistributes(elements, elements, CellBytes(vec));
  }

  /** Both arrays have room for the elements of the kernel; without LARG the kernel declares them itself. */
  predicate ArraysSuffice(larg: bool, vec: nat, elements: nat) {
    larg ==> && CellBytes(vec) * elements <= LocalArguments(vec, elements).0
             && CellBytes(vec) * (2 * elements) <= LocalArguments(vec, elements).1
  }

  /** The arrays are large enough unless LARG is used with VEC 4. */
  lemma ArraysSufficeIff(larg: bool, vec: nat, elements: nat)
    ensures ArraysSuffice(larg, vec, elements) <==> !(larg && vec == 4 && elements > 0)
  {
    if vec <= 4 {
      BytesPassed(vec, elements);
    } else {
      MulDistributes(elements, elements, 4);
    }
  }
}
