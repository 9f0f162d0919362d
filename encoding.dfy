/**
 * Tour encoding (tsp_cl_full.py, run_impl, lines 52-62): the population is
 * flattened into one integer buffer; every chromosome contributes its genes
 * followed by its first gene again, so that each tour is cyclic.
 */
module TourEncoding {
  import opened Wrappers

  /** A gene is a list of city ids; `+=` extends the buffer by its contents. */
  type Gene = seq<int>

  /** A chromosome; its gene count `num_of_genes` is the length of its DNA. */
  datatype Chromosome = Chromosome(dna: seq<Gene>) {
    function NumOfGenes(): nat { |dna| }
  }

  /** Why the encoding loop stops. */
  datatype EncodeError =
    | EmptyChromosome(index: nat)  // `c.dna[0]` of a chromosome without genes
    | LengthMismatch(index: nat)   // the gene-count `assert` fails

  /** The concatenation of the genes' contents, in order. */
  function Flatten(dna: seq<Gene>): seq<int>
  {
    if dna == [] then [] else Flatten(dna[..|dna| - 1]) + dna[|dna| - 1]
  }

  /** What one chromosome contributes to the buffer. */
  function CyclicTour(c: Chromosome): seq<int>
    requires c.dna != []
  {
    Flatten(c.dna) + c.dna[0]
  }

  /** The buffer the loop builds over a population of non-empty chromosomes. */
  function Layout(pop: seq<Chromosome>): seq<int>
    requires forall i :: 0 <= i < |pop| ==> pop[i].dna != []
  {
    if pop == [] then [] else Layout(pop[..|pop| - 1]) + CyclicTour(pop[|pop| - 1])
  }

  /**
   * Chromosome i stops the loop when every chromosome before it passed.
   * The first chromosome sets the expected gene count; if it has no genes
   * the `assert` passes and `c.dna[0]` fails. Any later chromosome fails the
   * `assert` exactly when its gene count differs from the first's.
   */
  predicate Faulty(pop: seq<Chromosome>, i: nat)
    requires i < |pop|
  {
    if i == 0 then pop[0].dna == [] else |pop[i].dna| != |pop[0].dna|
  }

  /** The error raised at chromosome i. */
  function ErrorAt(i: nat): EncodeError
  {
    if i == 0 then EmptyChromosome(0) else LengthMismatch(i)
  }

  predicate WellFormed(pop: seq<Chromosome>)
  {
    forall i :: 0 <= i < |pop| ==> !Faulty(pop, i)
  }

  /** Every chromosome has one gene count, the first's, and it is not zero. */
  predicate SameGeneCount(pop: seq<Chromosome>)
  {
    forall i :: 0 <= i < |pop| ==> pop[i].dna != [] && |pop[i].dna| == |pop[0].dna|
  }

  lemma WellFormedIff(pop: seq<Chromosome>)
    ensures WellFormed(pop) <==> SameGeneCount(pop)
  {
    if WellFormed(pop) && pop != [] {
      assert !Faulty(pop, 0);
      forall i | 0 <= i < |pop| ensures pop[i].dna != [] && |pop[i].dna| == |pop[0].dna| {
        assert !Faulty(pop, i);
      }
    }
  }

  /**
   * The encoding loop. On success the buffer is the layout of the whole
   * population; otherwise the error names the first chromosome that stops
   * the loop.
   */
  method Encode(pop: seq<Chromosome>) returns (r: Result<seq<int>, EncodeError>)
    ensures r.Success? <==> WellFormed(pop)
    ensures r.Success? ==> SameGeneCount(pop) && r.value == Layout(pop)
    ensures r.Failure? ==>
      && r.error.index < |pop|
      && Faulty(pop, r.error.index)
      && (forall j :: 0 <= j < r.error.index ==> !Faulty(pop, j))
      && r.error == ErrorAt(r.error.index)
  {
    var lengthOfChromosome := 0;
    var buffer: seq<int> := [];
    var i := 0;
    while i < |pop|
      invariant 0 <= i <= |pop|
      invariant forall j :: 0 <= j < i ==> !Faulty(pop, j)
      invariant forall j :: 0 <= j < i ==> pop[j].dna != []
      invariant lengthOfChromosome == if i == 0 then 0 else |pop[0].dna|
      invariant buffer == Layout(pop[..i])
    {
      var c := pop[i];
      if lengthOfChromosome == 0 {
        lengthOfChromosome := c.NumOfGenes();
      }
      if lengthOfChromosome != c.NumOfGenes() {
        assert Faulty(pop, i);
        return Failure(LengthMismatch(i));
      }
      var k := 0;
      while k < |c.dna|
        invariant 0 <= k <= |c.dna|
        invariant buffer == Layout(pop[..i]) + Flatten(c.dna[..k])
      {
        assert c.dna[..k + 1][..k] == c.dna[..k];
        buffer := buffer + c.dna[k];
        k := k + 1;
      }
      if c.dna == [] {
        assert i == 0 && Faulty(pop, 0);
        return Failure(EmptyChromosome(i));
      }
      assert c.dna[..k] == c.dna;
      buffer := buffer + c.dna[0];
      assert pop[..i + 1][..i] == pop[..i];
      i := i + 1;
    }
    assert pop[..i] == pop;
    WellFormedIff(pop);
    r := Success(buffer);
  }

  // ---------------------------------------------------------------------
  // The buffer layout when every gene holds exactly one city id.

  predicate SingleIdGenes(c: Chromosome)
  {
    forall g :: 0 <= g < |c.dna| ==> |c.dna[g]| == 1
  }

  /** The tour as a sequence of city ids, one per gene. */
  function Ids(c: Chromosome): (ids: seq<int>)
    requires SingleIdGenes(c)
    ensures |ids| == |c.dna|
  {
    seq(|c.dna|, k requires 0 <= k < |c.dna| => c.dna[k][0])
  }

  /** Every chromosome has n single-id genes, and n is not zero. */
  predicate Uniform(pop: seq<Chromosome>, n: nat)
  {
    n > 0 && forall i :: 0 <= i < |pop| ==> |pop[i].dna| == n && SingleIdGenes(pop[i])
  }

  lemma UniformIsWellFormed(pop: seq<Chromosome>, n: nat)
    requires Uniform(pop, n)
    ensures WellFormed(pop) && SameGeneCount(pop)
  {
    WellFormedIff(pop);
  }

  lemma {:induction false} FlattenSingleIds(c: Chromosome)
    requires SingleIdGenes(c)
    ensures Flatten(c.dna) == Ids(c)
    decreases |c.dna|
  {
    if c.dna != [] {
      var init := Chromosome(c.dna[..|c.dna| - 1]);
      FlattenSingleIds(init);
      assert c.dna[|c.dna| - 1] == [c.dna[|c.dna| - 1][0]];
      assert Ids(c) == Ids(init) + [c.dna[|c.dna| - 1][0]];
    }
  }

  /** A single-id tour is the city ids, then the first id again. */
  lemma CyclicTourOfSingleIds(c: Chromosome)
    requires c.dna != [] && SingleIdGenes(c)
    ensures CyclicTour(c) == Ids(c) + [Ids(c)[0]]
    ensures |CyclicTour(c)| == |c.dna| + 1
    ensures CyclicTour(c)[0] == CyclicTour(c)[|c.dna|]
  {
    FlattenSingleIds(c);
    assert c.dna[0] == [c.dna[0][0]];
  }

  /** The window of stride `stride` that holds chromosome i. */
  function Window(buffer: seq<int>, i: nat, stride: nat): seq<int>
    requires (i + 1) * stride <= |buffer|
  {
    buffer[i * stride..(i + 1) * stride]
  }

  lemma {:induction false} LayoutLength(pop: seq<Chromosome>, n: nat)
    requires Uniform(pop, n)
    ensures |Layout(pop)| == |pop| * (n + 1)
  {
    if pop != [] {
      var m := |pop| - 1;
      assert Uniform(pop[..m], n);
      LayoutLength(pop[..m], n);
      CyclicTourOfSingleIds(pop[m]);
      MulSucc(m, n + 1);
    }
  }

  lemma {:induction false} LayoutWindow(pop: seq<Chromosome>, n: nat, i: nat)
    requires Uniform(pop, n) && i < |pop|
    ensures (i + 1) * (n + 1) <= |Layout(pop)|
    ensures Window(Layout(pop), i, n + 1) == CyclicTour(pop[i])
  {
    var s := n + 1;
    var m := |pop| - 1;
    var init := pop[..m];
    assert Uniform(init, n);
    LayoutLength(init, n);
    CyclicTourOfSingleIds(pop[m]);
    var a := Layout(init);
    var b := CyclicTour(pop[m]);
    assert Layout(pop) == a + b;
    if i < m {
      LayoutWindow(init, n, i);
      WindowOfPrefix(a, b, i, s);
      assert init[i] == pop[i];
    } else {
      WindowAtEnd(a, b, i, s);
    }
  }

  /**
   * With n single-id genes per chromosome the buffer has length
   * |pop| * (n + 1), and window i of stride n + 1 is chromosome i's cyclic tour.
   */
  lemma LayoutShape(pop: seq<Chromosome>, n: nat)
    requires Uniform(pop, n)
    ensures |Layout(pop)| == |pop| * (n + 1)
    ensures forall i :: 0 <= i < |pop| ==>
      (i + 1) * (n + 1) <= |Layout(pop)| && Window(Layout(pop), i, n + 1) == CyclicTour(pop[i])
  {
    LayoutLength(pop, n);
    forall i | 0 <= i < |pop|
      ensures (i + 1) * (n + 1) <= |Layout(pop)| && Window(Layout(pop), i, n + 1) == CyclicTour(pop[i])
    {
      LayoutWindow(pop, n, i);
    }
  }

  lemma MulSucc(m: nat, s: nat)
    ensures (m + 1) * s == m * s + s
  {
  }

  lemma MulMonotone(x: nat, y: nat, z: nat)
    requires x <= y
    ensures x * z <= y * z
  {
  }

  lemma WindowOfPrefix(a: seq<int>, b: seq<int>, i: nat, s: nat)
    requires (i + 1) * s <= |a|
    ensures Window(a + b, i, s) == Window(a, i, s)
  {
    assert i * s <= (i + 1) * s by { MulMonotone(i, i + 1, s); }
  }

  lemma WindowAtEnd(a: seq<int>, b: seq<int>, i: nat, s: nat)
    requires i * s == |a| && |b| == s
    ensures (i + 1) * s == |a + b|
    ensures Window(a + b, i, s) == b
  {
    MulSucc(i, s);
  }

  /** Every window of the encoded buffer starts and ends with the same city. */
  lemma EncodedToursAreCyclic(pop: seq<Chromosome>, n: nat, i: nat)
    requires Uniform(pop, n) && i < |pop|
    ensures (i + 1) * (n + 1) <= |Layout(pop)|
    ensures var w := Window(Layout(pop), i, n + 1);
      w == Ids(pop[i]) + [Ids(pop[i])[0]] && w[0] == w[n]
  {
    LayoutWindow(pop, n, i);
    CyclicTourOfSingleIds(pop[i]);
  }
}
