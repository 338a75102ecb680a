/** The integer statistics of a vector (src/utils/vectorProcessor.ts).

    `VectorProcessor` is a class of static methods with no state of its own,
    so each becomes a method of this module. Every one walks the vector once
    with counters and accumulators; the functions `Sum`, `Count` and
    `SumWhere` state what a walk over a prefix has gathered, and the lemmas
    relate the results to one another. Elements are integers: the averages,
    which divide, are not part of this model. */
module VectorStats {

  datatype Option<+T> = None | Some(value: T)

  // ----------------------------------------------------- the specifications

  /** The sum of the elements. */
  function Sum(v: seq<int>): int {
    if |v| == 0 then 0 else Sum(v[..|v| - 1]) + v[|v| - 1]
  }

  /** How many elements satisfy `p`. */
  function Count(v: seq<int>, p: int -> bool): (r: nat)
    ensures r <= |v|
  {
    if |v| == 0 then 0 else Count(v[..|v| - 1], p) + if p(v[|v| - 1]) then 1 else 0
  }

  /** The sum of the elements that satisfy `p`. */
  function SumWhere(v: seq<int>, p: int -> bool): int {
    if |v| == 0 then 0 else SumWhere(v[..|v| - 1], p) + if p(v[|v| - 1]) then v[|v| - 1] else 0
  }

  /** `num >= 0`: zero is counted with the positives. */
  predicate CountsAsPositive(x: int) { x >= 0 }

  predicate Negative(x: int) { x < 0 }

  predicate Zero(x: int) { x == 0 }

  /** `num % 2 === 0` on a non-zero integer. JavaScript's remainder takes
      the sign of the dividend, but it is zero exactly when Dafny's is. */
  predicate EvenNonZero(x: int) { x != 0 && x % 2 == 0 }

  predicate OddNonZero(x: int) { x != 0 && x % 2 != 0 }

  /** `num >= 10 && num <= 50`. */
  predicate From10To50(x: int) { 10 <= x <= 50 }

  /** The first position of `x` in `v`. */
  function FirstPos(v: seq<int>, x: int): (r: nat)
    requires x in v
    ensures r < |v| && v[r] == x
    ensures forall i :: 0 <= i < r ==> v[i] != x
  {
    if v[0] == x then 0 else 1 + FirstPos(v[1..], x)
  }

  /** What `calcularModa` answers: nothing when no value occurs twice,
      otherwise a value of highest frequency (at least 2), the earliest
      to appear among those tied. */
  predicate IsModa(v: seq<int>, moda: Option<int>) {
    && (moda.None? <==> forall i :: 0 <= i < |v| ==> multiset(v)[v[i]] <= 1)
    && (moda.Some? ==>
      && moda.value in v && multiset(v)[moda.value] >= 2
      && (forall i :: 0 <= i < |v| ==> multiset(v)[v[i]] <= multiset(v)[moda.value])
      && (forall i :: 0 <= i < |v| && multiset(v)[v[i]] == multiset(v)[moda.value] ==>
            FirstPos(v, moda.value) <= i))
  }

  // ------------------------------------------------------------- the lemmas

  /** Sums split over concatenation. */
  lemma {:induction false} SumAppend(a: seq<int>, b: seq<int>)
    ensures Sum(a + b) == Sum(a) + Sum(b)
    decreases |b|
  {
    var c := a + b;
    if |b| == 0 {
      assert c == a;
    } else {
      assert c[..|c| - 1] == a + b[..|b| - 1];
      assert c[|c| - 1] == b[|b| - 1];
      SumAppend(a, b[..|b| - 1]);
    }
  }

  /** Two complementary tests count every element exactly once... */
  lemma {:induction false} CountComplement(v: seq<int>, p: int -> bool, q: int -> bool)
    requires forall x :: q(x) == !p(x)
    ensures Count(v, p) + Count(v, q) == |v|
  {
    if |v| > 0 {
      CountComplement(v[..|v| - 1], p, q);
    }
  }

  /** ... and their sums add up to the whole sum. */
  lemma {:induction false} SumComplement(v: seq<int>, p: int -> bool, q: int -> bool)
    requires forall x :: q(x) == !p(x)
    ensures SumWhere(v, p) + SumWhere(v, q) == Sum(v)
  {
    if |v| > 0 {
      SumComplement(v[..|v| - 1], p, q);
    }
  }

  /** A test no element meets counts zero, and one every element meets
      counts them all. */
  lemma {:induction false} CountExtremes(v: seq<int>, p: int -> bool)
    ensures Count(v, p) == 0 <==> forall i :: 0 <= i < |v| ==> !p(v[i])
    ensures Count(v, p) == |v| <==> forall i :: 0 <= i < |v| ==> p(v[i])
  {
    if |v| > 0 {
      var u := v[..|v| - 1];
      CountExtremes(u, p);
      assert forall i :: 0 <= i < |u| ==> u[i] == v[i];
    }
  }

  /** Every element is a zero, a non-zero even or an odd number. */
  lemma {:induction false} ParityPartition(v: seq<int>)
    ensures Count(v, EvenNonZero) + Count(v, OddNonZero) + Count(v, Zero) == |v|
  {
    if |v| > 0 {
      ParityPartition(v[..|v| - 1]);
    }
  }

  /** The zeros are counted exactly as often as 0 occurs, and never among
      the evens. */
  lemma {:induction false} ZerosOnlyInCeros(v: seq<int>)
    ensures Count(v, Zero) == multiset(v)[0]
    ensures !EvenNonZero(0) && !OddNonZero(0)
  {
    if |v| > 0 {
      ZerosOnlyInCeros(v[..|v| - 1]);
      assert v == v[..|v| - 1] + [v[|v| - 1]];
    }
  }

  // ------------------------------------------------------------ the methods

  /** `validateVector`: up to three reports of an empty vector (console
      output, not modelled), then whether it has elements. */
  method ValidateVector(v: seq<int>) returns (valid: bool)
    ensures valid <==> |v| > 0
  {
    var attempts := 0;
    while |v| == 0 && attempts < 3
      invariant 0 <= attempts <= 3
      invariant |v| > 0 ==> attempts == 0
    {
      attempts := attempts + 1;
    }
    valid := |v| > 0;
  }

  method CalcularSuma(v: seq<int>) returns (suma: int)
    ensures suma == Sum(v)
  {
    suma := 0;
    var i := 0;
    while i < |v|
      invariant 0 <= i <= |v|
      invariant suma == Sum(v[..i])
    {
      assert v[..i + 1][..i] == v[..i];
      suma := suma + v[i];
      i := i + 1;
    }
    assert v[..|v|] == v;
  }

  /** `calcularMaximoMinimo`: on an empty vector `vector[0]` is undefined,
      which `None` stands for, and both positions stay 0. */
  method CalcularMaximoMinimo(v: seq<int>) returns (maximo: Option<int>, minimo: Option<int>, posMax: nat, posMin: nat)
    ensures |v| == 0 ==> maximo == None && minimo == None && posMax == 0 && posMin == 0
    ensures |v| > 0 ==> posMax < |v| && maximo == Some(v[posMax])
    ensures |v| > 0 ==> posMin < |v| && minimo == Some(v[posMin])
    ensures |v| > 0 ==> forall i :: 0 <= i < |v| ==> v[posMin] <= v[i] <= v[posMax]
    ensures forall i :: 0 <= i < posMax ==> v[i] < v[posMax]
    ensures forall i :: 0 <= i < posMin ==> v[i] > v[posMin]
  {
    posMax, posMin := 0, 0;
    if |v| == 0 {
      return None, None, 0, 0;
    }
    var hi, lo := v[0], v[0];
    var i := 1;
    while i < |v|
      invariant 1 <= i <= |v|
      invariant posMax < i && hi == v[posMax] && posMin < i && lo == v[posMin]
      invariant forall k :: 0 <= k < i ==> lo <= v[k] <= hi
      invariant forall k :: 0 <= k < posMax ==> v[k] < hi
      invariant forall k :: 0 <= k < posMin ==> v[k] > lo
    {
      var valor := v[i];
      if valor > hi {
        hi := valor;
        posMax := i;
      }
      if valor < lo {
        lo := valor;
        posMin := i;
      }
      i := i + 1;
    }
    maximo, minimo := Some(hi), Some(lo);
  }

  method ClasificarPositivosNegativos(v: seq<int>)
    returns (positivos: nat, negativos: nat, sumaPositivos: int, sumaNegativos: int)
    ensures positivos == Count(v, CountsAsPositive) && sumaPositivos == SumWhere(v, CountsAsPositive)
    ensures negativos == Count(v, Negative) && sumaNegativos == SumWhere(v, Negative)
  {
    positivos, negativos, sumaPositivos, sumaNegativos := 0, 0, 0, 0;
    var i := 0;
    while i < |v|
      invariant 0 <= i <= |v|
      invariant positivos == Count(v[..i], CountsAsPositive) && sumaPositivos == SumWhere(v[..i], CountsAsPositive)
      invariant negativos == Count(v[..i], Negative) && sumaNegativos == SumWhere(v[..i], Negative)
    {
      assert v[..i + 1][..i] == v[..i];
      var num := v[i];
      if num >= 0 {
        positivos := positivos + 1;
        sumaPositivos := sumaPositivos + num;
      } else {
        negativos := negativos + 1;
        sumaNegativos := sumaNegativos + num;
      }
      i := i + 1;
    }
    assert v[..|v|] == v;
  }

  method ContarParImparCeros(v: seq<int>) returns (pares: nat, impares: nat, ceros: nat)
    ensures pares == Count(v, EvenNonZero) && impares == Count(v, OddNonZero) && ceros == Count(v, Zero)
  {
    pares, impares, ceros := 0, 0, 0;
    var i := 0;
    while i < |v|
      invariant 0 <= i <= |v|
      invariant pares == Count(v[..i], EvenNonZero) && impares == Count(v[..i], OddNonZero)
      invariant ceros == Count(v[..i], Zero)
    {
      assert v[..i + 1][..i] == v[..i];
      var num := v[i];
      if num == 0 {
        ceros := ceros + 1;
      } else if num % 2 == 0 {
        pares := pares + 1;
      } else {
        impares := impares + 1;
      }
      i := i + 1;
    }
    assert v[..|v|] == v;
  }

  method ContarEntre10y50(v: seq<int>) returns (contador: nat)
    ensures contador == Count(v, From10To50)
  {
    contador := 0;
    var i := 0;
    while i < |v|
      invariant 0 <= i <= |v|
      invariant contador == Count(v[..i], From10To50)
    {
      assert v[..i + 1][..i] == v[..i];
      var num := v[i];
      if num >= 10 && num <= 50 {
        contador := contador + 1;
      }
      i := i + 1;
    }
    assert v[..|v|] == v;
  }

  /** `calcularModa`: a frequency table filled in one pass, whose keys keep
      the order in which they first appeared, then a scan of that table
      for a frequency strictly above the best so far, starting from 1. */
  method CalcularModa(v: seq<int>) returns (moda: Option<int>)
    ensures IsModa(v, moda)
  {
    var mapa, keys := Frequencies(v);

    moda := None;
    var maxFrecuencia := 1;
    ghost var at := 0;
    var t := 0;
    while t < |keys|
      invariant 0 <= t <= |keys|
      invariant moda.None? ==> maxFrecuencia == 1
      invariant moda.Some? ==> at < t && keys[at] == moda.value && mapa[moda.value] == maxFrecuencia >= 2
      invariant forall j :: 0 <= j < t ==> mapa[keys[j]] <= maxFrecuencia
      invariant moda.Some? ==> forall j :: 0 <= j < at ==> mapa[keys[j]] < maxFrecuencia
    {
      var frecuencia := mapa[keys[t]];
      if frecuencia > maxFrecuencia {
        moda := Some(keys[t]);
        maxFrecuencia := frecuencia;
        at := t;
      }
      t := t + 1;
    }
    ModeOfTable(v, mapa, keys, moda, maxFrecuencia, at);
  }

  /** What the scan of the table found, read back on the vector. */
  lemma ModeOfTable(v: seq<int>, mapa: map<int, nat>, keys: seq<int>, moda: Option<int>, best: nat, at: nat)
    requires forall x :: x in mapa <==> x in v
    requires forall x :: x in mapa ==> mapa[x] == multiset(v)[x]
    requires forall x :: x in mapa <==> x in keys
    requires forall j :: 0 <= j < |keys| ==> keys[j] in mapa && keys[j] in v
    requires forall j, k :: 0 <= j < k < |keys| ==> FirstPos(v, keys[j]) < FirstPos(v, keys[k])
    requires moda.None? ==> best == 1
    requires moda.Some? ==> at < |keys| && keys[at] == moda.value && mapa[moda.value] == best >= 2
    requires forall j :: 0 <= j < |keys| ==> mapa[keys[j]] <= best
    requires moda.Some? ==> forall j :: 0 <= j < at ==> mapa[keys[j]] < best
    ensures moda.None? <==> forall i :: 0 <= i < |v| ==> multiset(v)[v[i]] <= 1
    ensures moda.Some? ==> moda.value in v && multiset(v)[moda.value] >= 2
    ensures moda.Some? ==> forall i :: 0 <= i < |v| ==> multiset(v)[v[i]] <= multiset(v)[moda.value]
    ensures moda.Some? ==> forall i :: 0 <= i < |v| && multiset(v)[v[i]] == multiset(v)[moda.value] ==>
                             FirstPos(v, moda.value) <= i
  {
    forall i | 0 <= i < |v|
      ensures multiset(v)[v[i]] <= best
      ensures moda.Some? && multiset(v)[v[i]] == best ==> FirstPos(v, moda.value) <= i
    {
      assert v[i] in v;
      var j :| 0 <= j < |keys| && keys[j] == v[i];
      if moda.Some? && multiset(v)[v[i]] == best && j != at {
        assert at < j;
      }
    }
    if moda.Some? {
      assert v[FirstPos(v, moda.value)] == moda.value;
    }
  }

  /** The table after counting `v[..i]`: a count per value seen ... */
  ghost predicate Counted(v: seq<int>, i: nat, mapa: map<int, nat>) {
    && i <= |v|
    && (forall x :: x in mapa <==> x in v[..i])
    && (forall x :: x in mapa ==> mapa[x] == multiset(v[..i])[x])
  }

  /** ... and its keys in the order the values first appear. */
  ghost predicate KeyOrder(v: seq<int>, i: nat, mapa: map<int, nat>, keys: seq<int>) {
    && (forall x :: x in mapa <==> x in keys)
    && (forall j :: 0 <= j < |keys| ==> keys[j] in v && FirstPos(v, keys[j]) < i)
    && (forall j, k :: 0 <= j < k < |keys| ==> FirstPos(v, keys[j]) < FirstPos(v, keys[k]))
  }

  /** The new count of `v[i]`. */
  function Bump(mapa: map<int, nat>, num: int): map<int, nat> {
    mapa[num := (if num in mapa then mapa[num] else 0) + 1]
  }

  /** Counting one more element keeps the counts right ... */
  lemma CountStep(v: seq<int>, i: nat, mapa: map<int, nat>)
    requires i < |v| && Counted(v, i, mapa)
    ensures Counted(v, i + 1, Bump(mapa, v[i]))
  {
    var num := v[i];
    assert v[..i + 1] == v[..i] + [num];
    assert multiset(v[..i + 1]) == multiset(v[..i]) + multiset{num};
  }

  /** ... and a value seen for the first time goes to the end of the keys. */
  lemma KeyStep(v: seq<int>, i: nat, mapa: map<int, nat>, keys: seq<int>)
    requires i < |v| && Counted(v, i, mapa) && KeyOrder(v, i, mapa, keys)
    ensures KeyOrder(v, i + 1, Bump(mapa, v[i]), if v[i] in mapa then keys else keys + [v[i]])
  {
    var num := v[i];
    if num !in mapa {
      assert num !in v[..i];
      assert FirstPos(v, num) == i;
    }
  }

  /** The first pass of `calcularModa`: `mapa.set(num, (mapa.get(num) || 0) + 1)`
      for every element, with the keys in insertion order as a JavaScript
      `Map` keeps them. */
  method Frequencies(v: seq<int>) returns (mapa: map<int, nat>, keys: seq<int>)
    ensures forall x :: x in mapa <==> x in v
    ensures forall x :: x in mapa ==> mapa[x] == multiset(v)[x]
    ensures forall x :: x in mapa <==> x in keys
    ensures forall j :: 0 <= j < |keys| ==> keys[j] in mapa && keys[j] in v
    ensures forall j, k :: 0 <= j < k < |keys| ==> FirstPos(v, keys[j]) < FirstPos(v, keys[k])
  {
    mapa := map[];
    keys := [];
    var i := 0;
    while i < |v|
      invariant Counted(v, i, mapa) && KeyOrder(v, i, mapa, keys)
    {
      var num := v[i];
      CountStep(v, i, mapa);
      KeyStep(v, i, mapa, keys);
      if num !in mapa {
        keys := keys + [num];
      }
      mapa := Bump(mapa, num);
      i := i + 1;
    }
    assert v[..|v|] == v;
  }

  // --------------------------------------------------------- procesarVector

  /** The integer fields of `VectorResults`. */
  datatype VectorResults = VectorResults(
    suma: int,
    maximo: int, minimo: int,
    positivos: nat, negativos: nat,
    pares: nat, impares: nat, ceros: nat,
    posMax: nat, posMin: nat,
    sumaPositivos: int, sumaNegativos: int,
    entre10y50: nat,
    moda: Option<int>,
    vector: seq<int>)

  /** `procesarVector`: nothing for an empty vector, otherwise every
      statistic as its own method computes it. The counts partition the
      vector and the partial sums add up to the sum. */
  method ProcesarVector(v: seq<int>) returns (r: Option<VectorResults>)
    ensures r.None? <==> |v| == 0
    ensures r.Some? ==> var s := r.value;
      && s.vector == v && s.suma == Sum(v)
      && s.posMax < |v| && s.maximo == v[s.posMax] && s.posMin < |v| && s.minimo == v[s.posMin]
      && (forall i :: 0 <= i < |v| ==> s.minimo <= v[i] <= s.maximo)
      && (forall i :: 0 <= i < s.posMax ==> v[i] < s.maximo)
      && (forall i :: 0 <= i < s.posMin ==> v[i] > s.minimo)
      && s.positivos == Count(v, CountsAsPositive) && s.sumaPositivos == SumWhere(v, CountsAsPositive)
      && s.negativos == Count(v, Negative) && s.sumaNegativos == SumWhere(v, Negative)
      && s.positivos + s.negativos == |v| && s.sumaPositivos + s.sumaNegativos == s.suma
      && s.pares == Count(v, EvenNonZero) && s.impares == Count(v, OddNonZero)
      && s.pares + s.impares + s.ceros == |v| && s.ceros == multiset(v)[0]
      && s.entre10y50 == Count(v, From10To50)
      && IsModa(v, s.moda)
  {
    var valid := ValidateVector(v);
    if !valid {
      return None;
    }
    var suma := CalcularSuma(v);
    var maximo, minimo, posMax, posMin := CalcularMaximoMinimo(v);
    var positivos, negativos, sumaPositivos, sumaNegativos := ClasificarPositivosNegativos(v);
    var pares, impares, ceros := ContarParImparCeros(v);
    var entre10y50 := ContarEntre10y50(v);
    var moda := CalcularModa(v);
    CountComplement(v, CountsAsPositive, Negative);
    SumComplement(v, CountsAsPositive, Negative);
    ParityPartition(v);
    ZerosOnlyInCeros(v);
    r := Some(VectorResults(suma, maximo.value, minimo.value, positivos, negativos, pares, impares, ceros,
                            posMax, posMin, sumaPositivos, sumaNegativos, entre10y50, moda, v));
  }
}
