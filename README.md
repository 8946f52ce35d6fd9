# freqgen, modelled in Dafny

freqgen designs a DNA sequence that encodes a given protein while matching
target k-mer and codon statistics. This project models the parts of it that
compute, and proves what they promise.

- **The optimiser's search operators**, in both implementations.
  - The Python genetic algorithm (`freqgen/generate.py`): the DNA to
    bit-vector encoding, back-translation into a seed, the perturbation that
    creates each first individual, synonymous mutation, codon-aligned
    crossover, and the "generations since improvement" stopping rule.
  - The JavaScript `Operators` class (`packages/freqgen-core/operators.js`):
    `seed`, `crossover` and `mutate`.
  - The central theorem is `Optimizer.FinalTranslationAgrees`. Whatever
    sequence of operators produced the best individual, it translates
    exactly like the back-translated insert. This is the assertion that
    closes `generate`.
- **The five frequency engines**:
  - `freqgen/freqgen.py`: `k_mers`, `k_mer_frequencies`, `codon_frequencies`
    and `amino_acids_to_codons`;
  - `freqgen.py`: the older Python module;
  - `packages/freqgen-core/kmers.js`: the Map-based JavaScript functions;
  - `packages/freqgen-core/index.js`: the object-based JavaScript functions;
  - `index.js`: the first JavaScript version.
- **The genetic-code derivations**: stop codons, codon lists per amino acid,
  synonym lists, and translation.
- **The validators and map utilities** of the JavaScript packages, and the
  input checks of `packages/freqgen-core/generate.js`.
- **The stand-alone generator** `seqgen.py`.

How the model represents things:

- A dictionary, a JavaScript `Map` or a plain object is an insertion-ordered
  list of pairs (`Dicts.Dict`). Key order is part of what the source
  produces, and sums over such a list are plain recursion. A plain object
  keeps insertion order only for keys that are neither array indices nor
  inherited property names. The k-mers the JavaScript counting functions
  receive are taken to be such keys, as DNA k-mers always are. The
  Object target of `generate`, whose keys are k values and so array
  indices, is given in JavaScript enumeration order instead.
- Frequencies are exact `real`s, so "the values sum to 1" is an exact
  statement.
- The genetic code is a parameter: an ordered dictionary from codon to
  amino-acid letter. The tables of Biopython, CAI and the YAML files are not
  part of this model.
- Every random draw is an index argument. A range precondition says which
  indices the source's random function may return.
- Code that updates state step by step is a `method` with a loop, proved
  against a specification function. In-place updates use an `array`
  (`Optimizer.Mutate`) or a class with a field
  (`CoreKmers.KmerMap.Set`, used by the in-place `kmerFrequencies`).

Where the code and its documentation disagree, the model follows the code:

- `amino_acids_to_codons` in `freqgen/freqgen.py` looks residues up in a
  `defaultdict`. An unknown residue therefore gets an empty codon list and
  fails with numpy's ValueError, not with the function's own KeyError
  (`FreqgenEngine.UnknownResidue`).
- `generate` in `packages/freqgen-core/generate.js` is modelled with its
  parameters in the declared order, target first. Its tests pass the
  amino-acid string first, so the target lands in the amino-acid
  parameter. Their throw is therefore the TypeError of calling `split` on
  a non-string (`GenerateJs.NonTextThrows`).
- The `validation` option of the Map-based `kmerFrequencies` returns a new
  empty Map for an empty Map. Otherwise it returns the Map it was given,
  updated in place.

## Model

| member | source | states |
|---|---|---|
| Encoding.Encode | freqgen/generate.py:9-19 | an encodable string becomes two bits per character |
| Encoding.DnaToVector | freqgen/generate.py:9-19 | succeeds exactly on the four bases and the digits 0-3, with twice the string's length; any other non-digit makes `astype(int)` raise ValueError; otherwise the digits 4-9 make `binary_repr` raise ValueError, as numpy 2 does |
| Encoding.Decode | freqgen/generate.py:22-28 | the string built from a vector has one character per two bits, rounded up; each character decodes its bit pair, and a lone trailing bit stays a digit |
| Encoding.VectorToDna | freqgen/generate.py:21-28 | ValueError exactly on the empty vector, where numpy's float array cannot take the letter "T"; any other vector decodes, one character per bit pair |
| Encoding.LetterBits | freqgen/generate.py:24-27 | each bit pair decodes to one of T, C, A and G, and that letter encodes back to the same pair |
| Encoding.DnaEncodable | freqgen/generate.py:11-15 | every DNA string can be encoded |
| Encoding.DecodeEncode | freqgen/generate.py:9-28 | `dna_to_vector` succeeds on every DNA string, and `vector_to_dna` gives the string back on every non-empty one and raises on the empty one |
| Encoding.EncodeDecode | freqgen/generate.py:9-28 | on every even-length vector, decoding yields DNA and encoding inverts it; on a non-empty one, `dna_to_vector(vector_to_dna(v))` is `v` |
| Encoding.DigitsEncode | freqgen/generate.py:11-16 | "0" encodes like "T", so the round trip fails outside DNA; "N" fails at `astype(int)` and "4" at `binary_repr` |
| Encoding.EncodeConcat | freqgen/generate.py:16-18 | the encoding of a concatenation is the concatenation of the encodings |
| Encoding.DecodeSlice | freqgen/generate.py:106 | decoding a slice taken at even positions is the same slice of the decoded string |
| Encoding.DecodeConcat | freqgen/generate.py:21-28 | decoding distributes over concatenation at an even split |
| GeneticCode.BuildTable | freqgen/freqgen.py:17-20 | the stop-codon loop builds exactly the table with every stop codon overwritten |
| GeneticCode.WithStopsFacts | freqgen/freqgen.py:17-20 | every stop codon maps to '*' and every other codon keeps its amino acid; the table stays a dictionary |
| GeneticCode.InvertTable | freqgen/freqgen.py:24-27 | the inversion loop computes the aa-to-codons dictionary, amino acids in order of first use |
| GeneticCode.InvertDistinct | freqgen/freqgen.py:24-27 | the inverse has each amino acid once |
| GeneticCode.InvertGet | freqgen/freqgen.py:25-26 | each amino acid's list is exactly its codons in table order |
| GeneticCode.InvertKeys | freqgen/freqgen.py:24-27 | an amino acid is a key exactly when some codon encodes it |
| GeneticCode.InvertFacts | freqgen.py:125-128 | `codons_for_aa` is a dictionary whose keys are the encoded amino acids, each listing its codons |
| GeneticCode.CodonsOfMember | freqgen.py:125-128 | a codon is in the list of an amino acid exactly when the table maps it to that amino acid |
| GeneticCode.CodonsOfNotKey | freqgen.py:126-127 | a codon the table lacks is in no list |
| GeneticCode.CodonsOfDistinct | freqgen/freqgen.py:25-26 | no codon is listed twice under one amino acid |
| GeneticCode.InvertExactlyOnce | freqgen.py:125-128 | each codon appears under exactly one amino acid, its own |
| GeneticCode.Synonyms | freqgen/generate.py:30-39 | the synonym table has the same keys as the genetic code |
| GeneticCode.SynonymsFacts | freqgen/freqgen.py:31 | a codon's synonyms are exactly the codons of its amino acid, include the codon itself, and have no repeats |
| GeneticCode.SynonymsShared | freqgen/generate.py:39 | two codons of one amino acid have the same synonym list |
| GeneticCode.Translation | freqgen/generate.py:167 | one amino acid, or none, for each complete codon |
| GeneticCode.TranslationConcat | freqgen/generate.py:167 | translation distributes over concatenation at a codon boundary |
| GeneticCode.TranslationByCodon | freqgen/generate.py:167 | strings whose codons agree in amino acid one by one translate alike |
| Optimizer.VTranslation | freqgen/generate.py:106 | an individual's translation has one entry per six-bit codon slot |
| Optimizer.VTranslationIsTranslation | freqgen/generate.py:165-167 | translating an individual is translating the DNA it decodes to |
| Optimizer.Without | freqgen/generate.py:113 | the filtered synonym list holds exactly the synonyms other than the codon |
| Optimizer.OthersFacts | freqgen/generate.py:109-113 | a codon with more than one synonym has a different synonym to switch to, and every synonym is a DNA triplet of the same amino acid |
| Optimizer.BackTranslate | freqgen/generate.py:57-64 | the back-translation loop computes the insert: a codon per mapped symbol, the stop codon for '*', nothing otherwise |
| Optimizer.Mappable | freqgen/generate.py:59-64 | the symbols that contribute a codon are a subsequence of the input |
| Optimizer.Expected | freqgen/generate.py:57-64 | one expected amino acid per mappable symbol |
| Optimizer.BackTranslationFacts | freqgen/generate.py:57-64 | with consistent tables the insert is DNA of three bases per mappable symbol and translates to those symbols, the stop as '*' |
| Optimizer.ContributionFacts | freqgen/generate.py:60-64 | one symbol contributes a DNA triplet that encodes it, or nothing |
| Optimizer.ExpectedCons | freqgen/generate.py:59-64 | the expected translation grows symbol by symbol, skipping unmapped symbols |
| Optimizer.UnmappedDropped | freqgen/generate.py:62-64 | symbols with no entry, other than '*', are dropped silently |
| Optimizer.FirstHalt | freqgen/generate.py:101-110 | the retry loop stops at the first draw whose codon has a synonym count other than one, or is missing from the table |
| Optimizer.Mutate | freqgen/generate.py:100-118 | in place, the array becomes exactly the mutation's specification, and the same array is returned |
| Optimizer.WriteCodon | freqgen/generate.py:116 | the slice assignment replaces the six bits of one slot and nothing else |
| Optimizer.SpliceCodons | freqgen/generate.py:116 | writing one slot keeps the length and every other slot |
| Optimizer.MutateFacts | freqgen/generate.py:100-118 | a mutation keeps the length and every bit outside one slot; that slot gets a different codon of the same amino acid, so the translation is unchanged |
| Optimizer.NoSynonymsNeverHalts | freqgen/generate.py:101-110 | when no codon of a non-empty individual has more than one synonym, no draw ends the retry loop |
| Optimizer.Crossover | freqgen/generate.py:121-126 | crossover succeeds exactly when the parent has at least two whole codons |
| Optimizer.CrossoverFacts | freqgen/generate.py:123-126 | the cut is at 6r with 1 <= r < codons; children have the parents' length and take each position from one parent, before and after the cut |
| Optimizer.CrossoverPreserves | freqgen/generate.py:121-126 | parents that translate alike have children that translate alike |
| Optimizer.PerturbStep | freqgen/generate.py:132-136 | one codon of the perturbation: a codon missing from the synonym table raises KeyError, otherwise its replacement is prepended |
| Optimizer.Perturb | freqgen/generate.py:132-136 | the only error the perturbation raises is the KeyError of the synonym lookup |
| Optimizer.CreateIndividual | freqgen/generate.py:129-138 | the decoding and the perturbation loop compute exactly the specification of `create_individual`: ValueError on the empty seed, KeyError on a missing codon, otherwise the encoded new sequence |
| Optimizer.PerturbOk | freqgen/generate.py:132-136 | the perturbation succeeds exactly when every codon is in the table |
| Optimizer.PerturbCodons | freqgen/generate.py:132-136 | codon i of the new sequence is the replacement of codon i |
| Optimizer.ReplacementFacts | freqgen/generate.py:133-136 | a replacement is a DNA triplet of the same amino acid, equal to the codon exactly when the codon has no other synonym |
| Optimizer.CreateFacts | freqgen/generate.py:129-138 | `create_individual` fails exactly when the seed is empty (ValueError) or a codon is missing from the table (KeyError); otherwise it keeps the length and the translation, keeps exactly the codons with one synonym and changes every other codon |
| Optimizer.PerturbedVector | freqgen/generate.py:136-138 | the perturbed sequence is DNA, and its encoding puts codon i in slot i |
| Optimizer.SeedCodons | freqgen/generate.py:130-132 | the codons `create_individual` reads are the six-bit slots of the seed |
| Optimizer.EncodeCodons | freqgen/generate.py:138 | encoding DNA of whole codons puts codon i in slot i |
| Optimizer.PerturbedCodons | freqgen/generate.py:132-136 | each new codon is DNA, encodes the old codon's amino acid, and differs from the old codon exactly when that codon has other synonyms |
| Optimizer.RunLoop | freqgen/generate.py:142-158 | the stagnation loop computes the run's final state and reports an interrupt when the supplied generations run out first |
| Optimizer.RunFacts | freqgen/generate.py:148-158 | the best fitness never increases and is the minimum of the first and every seen generation's best; the counter counts the generations run |
| Optimizer.NoImprovementRuns | freqgen/generate.py:149-155 | without a strict improvement the loop stops after exactly `max_gens_since_improvement` generations, keeping the first fitness |
| Optimizer.ConstantFitnessRuns | freqgen/generate.py:142-158 | with constant fitness, a run from the first generation lasts `max_gens_since_improvement` generations |
| Optimizer.DerivedTranslatesLikeSeed | freqgen/generate.py:165-167 | every individual obtained from the seed by any sequence of the operators has the seed's length and translation |
| Optimizer.FinalTranslationAgrees | freqgen/generate.py:165-167 | `vector_to_dna` of the best individual raises exactly when the insert is empty; otherwise it translates like the insert, and the insert translates to the mappable residues |
| Optimizer.DecodedInsert | freqgen/generate.py:67 | encoding the insert, deriving an individual from it and decoding keeps the translation |
| Optimizer.DecodedTranslation | freqgen/generate.py:165 | any derived individual decodes to DNA that translates like the decoded seed |
| Layout.NumericKs | freqgen/generate.py:78 | the numeric k values are exactly the non-"codons" keys of the target parameters |
| Layout.BuildTarget | freqgen/generate.py:77-81 | the target loop yields the values of the key-sorted tables, the numeric k values ascending, then the codon table |
| Layout.LabelledValues | freqgen/generate.py:79 | the target vector is the concatenation of each table's values in key order |
| Layout.LabelledKeys | freqgen/generate.py:79 | table lists that pairwise share keys are laid out under the same labels |
| Layout.CandidateLabelled | freqgen/generate.py:83-89 | a candidate's vector is the values of its labelled tables |
| Layout.DnaCodons | freqgen/generate.py:88 | the codons of DNA made of whole codons are DNA triplets |
| Layout.SortedNumeric | freqgen/generate.py:78 | the sorted k values are exactly the numeric keys |
| Layout.CandidateOk | freqgen/generate.py:83-89 | a DNA candidate that fits the parameters has a vector under a complete genetic code |
| Layout.BlockPairs | freqgen/generate.py:77-89 | table by table, the candidate and the target have the same keys |
| Layout.LayoutsAgree | freqgen/generate.py:77-89 | the candidate vector exists and lines up position by position with the target vector: same labels, same length |
| Lex.SortByKeyPermutes | freqgen/freqgen.py:368 | sorting by key permutes the entries |
| Lex.SortByKeySorted | freqgen/freqgen.py:368 | the keys of a sorted dictionary are strictly increasing |
| Lex.SortedUnique | freqgen/generate.py:79 | two strictly sorted lists with the same members are equal |
| Lex.SameKeysSameLayout | freqgen/generate.py:79 | dictionaries with the same keys line up under the same key list once sorted |
| Lex.SortIntsFacts | freqgen/freqgen.py:340 | `sorted(k)` permutes the k values into ascending order |
| Dna.Upper | freqgen/freqgen.py:195 | upper-casing ASCII text keeps the length |
| Dna.UpperDna | freqgen/freqgen.py:356 | upper-casing leaves DNA unchanged |
| Dna.Windows | freqgen/freqgen.py:258-264 | len - k + 1 windows, the i-th being `s[i:i+k]` |
| Dna.Chunks | index.js:10-16 | floor(len / k) chunks at multiples of k, the remainder dropped |
| Dna.Codons | freqgen/freqgen.py:197 | Python's codon split, with a short last piece when the length is not a multiple of 3 |
| Dna.Defaults | freqgen/freqgen.py:365 | the defaults have every ATGC k-mer as a key, each with value 0 |
| Dna.DefaultsFacts | freqgen/freqgen.py:365 | the defaults are a dictionary whose keys are exactly the DNA strings of length k, and they sum to 0 |
| Dna.AllKmersLength | freqgen.py:342 | there are 4^k ATGC k-mers |
| Dna.AllKmersMember | freqgen/freqgen.py:365 | the ATGC k-mers are exactly the DNA strings of length k |
| Dna.AllKmersDistinct | freqgen/freqgen.py:365 | no ATGC k-mer is listed twice |
| Dna.CodonsAreChunks | freqgen.py:213 | for a length that is a multiple of 3, the codon split is the chunking into 3-mers |
| Dna.JoinCodons | freqgen/freqgen.py:197 | joining the codon split gives back the string |
| Dna.JoinLength | freqgen/freqgen.py:98 | joining pieces of equal length n gives n characters per piece |
| Dna.WindowsAreKmers | freqgen/freqgen.py:364-366 | windows of a DNA string are ATGC k-mers |
| FreqgenEngine.JoinedCodonSeq | freqgen/freqgen.py:187-194 | the input check succeeds exactly when every piece and the joined sequence are whole codons, and returns the join |
| FreqgenEngine.CheckCodonSeq | freqgen/freqgen.py:187-195 | the checking loop computes the same result as the input check |
| FreqgenEngine.FillMissing | freqgen/freqgen.py:204-208 | the zero-fill loop adds the missing table codons at 0 |
| FreqgenEngine.RelativeFreqs | freqgen/freqgen.py:212-219 | the relative table has exactly the genetic code's keys |
| FreqgenEngine.RelativeLoop | freqgen/freqgen.py:212-219 | the relative loop computes the relative table |
| FreqgenEngine.CodonFrequencies | freqgen/freqgen.py:187-222 | the whole function computes its specification: the checks, the absolute table and the relative table |
| FreqgenEngine.ObservedFacts | freqgen/freqgen.py:197-199 | one entry per distinct codon, each its share of all codons, summing to 1 when there is any codon |
| FreqgenEngine.ZeroFillFacts | freqgen/freqgen.py:204-208 | zero-filling adds the missing keys at 0 and changes no value and no sum |
| FreqgenEngine.AbsoluteFacts | freqgen/freqgen.py:195-210 | absolute frequencies cover every table codon and every observed codon, give each its share, and sum to 1 unless the sequence is empty |
| FreqgenEngine.RelativeMember | freqgen/freqgen.py:214-218 | a codon's relative value is its frequency over its synonym group's total, or 1/size when the group is unused |
| FreqgenEngine.RelativeGroupSum | freqgen/freqgen.py:212-219 | the relative frequencies of each synonym group sum to 1 |
| FreqgenEngine.CodonFrequenciesFacts | freqgen/freqgen.py:187-222 | fails exactly on a sequence that is not whole codons or on another mode; absolute results cover the table and sum to 1; relative results have the table's keys and each group sums to 1 |
| FreqgenEngine.NatString | freqgen/freqgen.py:252 | `%i` of a non-negative integer: decimal digits without a leading zero that read back as the number |
| FreqgenEngine.KMers | freqgen/freqgen.py:251-264 | ValueError unless 1 <= k <= len, with the source's three messages in its check order, the first naming k and the length; otherwise the len - k + 1 windows `seq[i:i+k]` |
| FreqgenEngine.RollingKMers | freqgen/freqgen.py:258-264 | the rolling-tuple generator yields exactly those windows |
| FreqgenEngine.CollectWindows | freqgen/freqgen.py:355-357 | the collection loop gathers the windows of every sequence in turn |
| FreqgenEngine.BlockLoop | freqgen/freqgen.py:350-370 | the body for one k computes that k's table |
| FreqgenEngine.BlocksLoop | freqgen/freqgen.py:348-370 | the loop over k computes the stored tables |
| FreqgenEngine.KMerFrequencies | freqgen/freqgen.py:327-379 | the whole function computes its specification |
| FreqgenEngine.AllWindowsOk | freqgen/freqgen.py:351-357 | windows can be collected exactly when k is positive and at most every sequence's length |
| FreqgenEngine.AllWindowsShape | freqgen/freqgen.py:355-357 | every window has length k and is DNA when the input is, with at least one window per sequence |
| FreqgenEngine.DefaultsZero | freqgen/freqgen.py:365 | the defaults hold 0 under every key |
| FreqgenEngine.BlockObserved | freqgen/freqgen.py:360-366 | a table is the observed frequencies of all windows jointly, merged into the defaults with `include_missing` |
| FreqgenEngine.MergedFacts | freqgen/freqgen.py:364-366 | merging into the defaults adds every ATGC k-mer at 0 and changes no observed value and no sum |
| FreqgenEngine.BlockFacts | freqgen/freqgen.py:355-366 | one k's table: keys are the observed k-mers, plus every ATGC k-mer with `include_missing`; each value is count over the total windows; the values sum to 1 |
| FreqgenEngine.BlockKeysDna | freqgen/freqgen.py:364-366 | with `include_missing` and DNA input, the keys are exactly the ATGC k-mers |
| FreqgenEngine.BlocksFromFacts | freqgen/freqgen.py:348-370 | the loop succeeds exactly when every k's table does, and stores each k's own table under k, whatever the order and repetition of the k values |
| FreqgenEngine.KListFacts | freqgen/freqgen.py:337-340 | the k values are taken in ascending order, with the same members |
| FreqgenEngine.KMerFrequenciesOk | freqgen/freqgen.py:327-352 | succeeds exactly when the flags are compatible, k and seq are given, every k is between 1 and every sequence's length, and a codon entry, if asked for, can be computed |
| FreqgenEngine.BlocksOk | freqgen/freqgen.py:351-357 | every table can be computed exactly when every k fits every sequence |
| FreqgenEngine.KMerFrequenciesBlocks | freqgen/freqgen.py:348-370 | a successful call stores, for every given k and nothing else, that k's table |
| FreqgenEngine.KMerFrequenciesVector | freqgen/freqgen.py:367-373 | with `vector`, the result is the key-sorted values of each table, k ascending |
| FreqgenEngine.KMerFrequenciesTables | freqgen/freqgen.py:370-379 | without `vector`, the result holds each k's table under k and, when asked for, the absolute codon frequencies under "codons" |
| FreqgenEngine.KMerFrequenciesExample | freqgen/freqgen.py:301-302 | `k_mer_frequencies(["A", "T"], 1)` gives 0.5 each |
| FreqgenEngine.KMersExample | freqgen/freqgen.py:240-241 | `k_mers("GATTACA", 2)` gives the six 2-mers |
| FreqgenEngine.NatStringExample | freqgen/freqgen.py:252 | 12 and 7 are formatted as "12" and "7" |
| FreqgenEngine.LengthMessageExample | freqgen/freqgen.py:251-252 | k = 12 on a 7-letter sequence gives "k (12) may not be less then length of seq (7)." |
| FreqgenEngine.AminoAcidsToCodons | freqgen/freqgen.py:84-98 | the residue loop computes the function's specification |
| FreqgenEngine.PickedFacts | freqgen/freqgen.py:90-91 | a picked codon is one of the residue's codons, has a frequency, and was drawn with positive weight |
| FreqgenEngine.PicksFacts | freqgen/freqgen.py:87-93 | the loop fails, always with ValueError, exactly when some residue raises; it appends one codon per residue that does not fail |
| FreqgenEngine.UnknownResidue | freqgen/freqgen.py:89-91 | an unknown residue gets the empty list from the default dictionary, and numpy rejects it with ValueError |
| FreqgenEngine.AminoAcidsToCodonsFacts | freqgen/freqgen.py:84-98 | succeeds exactly when every residue yields a codon, giving three bases per residue that translate back codon by codon; a skipped residue gives KeyError |
| FreqgenEngine.PickedCodon | freqgen/freqgen.py:89-91 | a codon picked from the inverted table encodes its residue |
| FreqgenEngine.JoinedCodons | freqgen/freqgen.py:98 | joining codons that encode the residues gives DNA that translates to the residues |
| LegacyFreqgen.GcContent | freqgen.py:87-90 | ValueError on any letter outside ATGC, division by zero on the empty string; otherwise a value in 0..1 whose product with the length is #G + #C |
| LegacyFreqgen.GcContentExample | freqgen.py:84-85 | "GATTACA" gives 2/7; a foreign letter raises |
| LegacyFreqgen.Present | freqgen.py:257-262 | skipping missing codons never lengthens the result |
| LegacyFreqgen.FirstNonBase | freqgen.py:249-251 | the position the validation loop stops at: a letter outside A, T, G, C with only bases before it |
| LegacyFreqgen.TranslateSpec | freqgen.py:249-263 | succeeds exactly on DNA of whole codons; otherwise the ValueError carries the first foreign letter, or reports the length |
| LegacyFreqgen.Translate | freqgen.py:249-263 | the validation and codon loops compute the specification |
| LegacyFreqgen.PresentAll | freqgen.py:257-262 | when every codon is known, each is translated in place |
| LegacyFreqgen.PresentFrom | freqgen.py:257-262 | every output letter is the amino acid of some codon |
| LegacyFreqgen.PresentNone | freqgen.py:257-262 | when no codon is known, the result is empty |
| LegacyFreqgen.TranslateFacts | freqgen.py:255-263 | DNA of whole codons translates; missing codons only shorten the result; a fully known sequence translates codon by codon |
| LegacyFreqgen.TranslateExample | tests/translate_test.py:5 | "ATTAATCAAACGGAGTTA" translates to "INQTEL" under any table with those six codons |
| LegacyFreqgen.TranslateStopExample | freqgen.py:249-262 | a stop codon is skipped, a partial codon is a ValueError, and "ANTX" is rejected with its first foreign letter N |
| LegacyFreqgen.IsliceStop | freqgen.py:290 | `islice` accepts exactly 0 <= k <= sys.maxsize; -1 and a k that does not fit 64 bits give the "Stop argument" message, any other negative k the "Indices" message |
| LegacyFreqgen.LegacyKMers | freqgen.py:289-295 | the rolling generator computes exactly the k-mer specification, `islice`'s errors included |
| LegacyFreqgen.RollStep | freqgen.py:293-295 | rolling drops the oldest letter and appends the newest |
| LegacyFreqgen.RolledYielded | freqgen.py:293-295 | the window a letter completes is the next one yielded |
| LegacyFreqgen.LegacyKMersFacts | freqgen.py:289-295 | the call fails exactly when k is negative or above sys.maxsize, with `islice`'s error; k >= 1 gives the windows, or none when k exceeds the length; k = 0 gives "" and then each letter |
| LegacyFreqgen.LegacyKMersExample | freqgen.py:289-295 | on "GA": k = 0 gives "", "G", "A"; k = 3 and k = sys.maxsize give nothing; k = -1 and sys.maxsize + 1 give the "Stop argument" message, k = -2 the "Indices" message |
| LegacyFreqgen.LegacyKMerFrequencies | freqgen.py:297-344 | `k_mer_frequencies` succeeds exactly when 0 <= k <= sys.maxsize, and otherwise raises `islice`'s ValueError |
| LegacyFreqgen.LegacyKMerFrequenciesFacts | freqgen.py:339-344 | succeeds exactly when 0 <= k <= sys.maxsize; observed k-mers map to count over total and sum to 1; with "dna" every ATGC k-mer is a key, unobserved ones at 0 |
| LegacyFreqgen.LegacyCodonFrequencies | freqgen.py:210-224 | the length check and the nested loops compute the specification: a ValueError for a partial codon, otherwise each codon's share of its amino acid |
| LegacyFreqgen.FillGroupGet | freqgen.py:219-223 | the inner loop writes each group codon's count over the group total, 0 when that total is 0 |
| LegacyFreqgen.FillGroupsGet | freqgen.py:217-223 | a codon keeps the value of the only group it belongs to |
| LegacyFreqgen.FillGroupsKeys | freqgen.py:217-223 | the keys are the codons of all groups |
| LegacyFreqgen.InvertEntry | freqgen.py:125-128 | each entry of `codons_for_aa` lists its amino acid's codons |
| LegacyFreqgen.GroupOfCodon | freqgen.py:125-128 | under a dictionary table, the one entry holding a codon is its own amino acid's |
| LegacyFreqgen.LegacyCodonKeys | freqgen.py:216-224 | every table codon, and nothing else, gets a frequency |
| LegacyFreqgen.LegacyCodonValue | freqgen.py:218-223 | a codon's value is its count over its amino acid's codon count, or 0 when that amino acid is unused |
| LegacyFreqgen.LegacyGroupValues | freqgen.py:218-221 | one amino acid's codon frequencies, in table order |
| LegacyFreqgen.LegacyCodonGroupSum | freqgen.py:216-224 | within a used amino acid, the codon frequencies sum to 1 |
| LegacyFreqgen.LegacyCodonGroupUnused | freqgen.py:222-223 | an unused amino acid has all its codons at 0 |
| Seqgen.Choice | seqgen.py:29 | the weighted choice succeeds exactly on acceptable weights, and otherwise raises ValueError; the result is a key with positive weight |
| Seqgen.Pieces | seqgen.py:28-29 | one piece per step, each the step's value |
| Seqgen.ConcatErrSticky | seqgen.py:28-29 | once a turn has raised, the loop raises that exception |
| Seqgen.ConcatOk | seqgen.py:28-30 | the loop succeeds exactly when every turn does, and then returns the pieces joined in order |
| Seqgen.ConcatErr | seqgen.py:28-29 | a failing loop fails with the exception of its first failing turn |
| Seqgen.AminoAcidSeq | seqgen.py:23-30 | the generating loop computes the specification |
| Seqgen.AminoAcidSeqFacts | seqgen.py:23-30 | ValueError unless the length is positive and the weights are acceptable; otherwise the drawn keys joined, and with one-letter keys `length` letters, each a key drawn with positive weight |
| Seqgen.AminoAcidSeqExample | tests/amino_acid_seq_test.py:5-14 | `amino_acid_seq(5, {"A": 1})` is "AAAAA"; a length of 0 or -1 and weights summing to 0.5 raise |
| Seqgen.FirstMissing | seqgen.py:54 | the first of the residue's codons without a frequency, the key the list comprehension misses |
| Seqgen.Options | seqgen.py:54 | the weight list pairs each of the residue's codons with its frequency |
| Seqgen.AminoAcidsToCodons | seqgen.py:44-56 | table inversion and the residue loop compute the specification |
| Seqgen.CodonStepFacts | seqgen.py:53-54 | an unknown residue raises KeyError carrying the residue; a missing frequency raises KeyError carrying one of the residue's codons that has none; a drawn codon is a DNA triplet encoding the residue with positive frequency |
| Seqgen.AminoAcidsToCodonsFacts | seqgen.py:44-56 | succeeds exactly when every turn does, with three bases per residue that translate back codon by codon; otherwise the first failing turn's KeyError or ValueError |
| Seqgen.UnknownResidueRaises | seqgen.py:52-53 | an unknown residue raises KeyError, carrying that residue, as soon as it is reached |
| Seqgen.GcContent | seqgen.py:70-73 | the validation loop and the count compute the same function as `gc_content` of freqgen.py |
| Utilities.KeyLengthCheckFacts | packages/freqgen-core/utilities.js:6-18 | accepts exactly the non-empty key lists of one common length; TypeError exactly on an empty Map; otherwise a thrown Error |
| Utilities.ValidateKmerCountMap | packages/freqgen-core/validateKmerMap.js:3-15 | the validator's loop (also `validateKmerCountMap` of utilities.js) computes the key-length check without changing the Map |
| Utilities.SumMapValues | packages/freqgen-core/utilities.js:30-36 | the loop returns the sum of the values |
| Utilities.SumMapValuesFacts | packages/freqgen-core/utilities.js:31-35 | the empty Map sums to 0, and a one-entry Map to its value |
| Utilities.EntryCheckFacts | packages/freqgen-core/utilities.js:21-25 | an entry passes exactly when it is a Map of one k-mer length whose values sum to 1 |
| Utilities.FrequencyMapCheckFacts | packages/freqgen-core/utilities.js:20-27 | the validator passes exactly when every entry is well formed, and otherwise fails as the first bad entry does |
| Utilities.ValidateKmerFrequencyMap | packages/freqgen-core/utilities.js:20-27 | the `forEach` loop computes that check |
| Utilities.FrequencyMapExamples | packages/freqgen-core/__tests__/utilities_test.js:4-30 | numeric and "codons" keys pass; a bad sum and mixed lengths fail |
| Utilities.AddMaps | packages/freqgen-cli/addMaps.js:1-12 | the two loops (also `addMaps` of utilities.js) build a new Map equal to the specification, leaving both inputs alone |
| Utilities.Missing | packages/freqgen-core/utilities.js:43-47 | the second loop adds at most the entries of `map1` |
| Utilities.CombinedIsSum | packages/freqgen-core/utilities.js:41 | the truthiness test is harmless on numbers: a stored 0 adds nothing |
| Utilities.FirstPassShape | packages/freqgen-core/utilities.js:40-42 | the first loop gives every entry of `map2`, with the combined value |
| Utilities.SecondPassShape | packages/freqgen-core/utilities.js:43-47 | the second loop appends exactly the entries of `map1` that are still missing |
| Utilities.AddMapsOrder | packages/freqgen-cli/addMaps.js:3-10 | the keys of `map2` come first, then the keys only `map1` has, each in its own order |
| Utilities.AddMapsValues | packages/freqgen-core/utilities.js:38-49 | the keys are the union; a shared key gets the sum, any other key its one map's value |
| Utilities.AddMapsFromMap2 | packages/freqgen-core/utilities.js:40-42 | a key of `map2` gets the sum, or `map2`'s own value |
| Utilities.AddMapsFromMap1 | packages/freqgen-core/utilities.js:43-47 | a key only `map1` has keeps `map1`'s value |
| Utilities.MissingEntries | packages/freqgen-core/utilities.js:45 | the entries added by the second loop are entries of `map1` |
| Utilities.MissingFrom | packages/freqgen-core/utilities.js:45 | each entry added by the second loop is `map1`'s own entry for its key |
| JsKmers.Substring | packages/freqgen-core/kmers.js:17 | `substring` on in-range indices is the slice, in either order |
| JsKmers.OverlapOf | packages/freqgen-core/kmers.js:3 | destructuring null throws; a missing or primitive options argument gives `overlap = true` |
| JsKmers.FillKmers | packages/freqgen-core/kmers.js:13-19 | the allocation and the loop compute the cut |
| JsKmers.ProducedWindows | packages/freqgen-core/kmers.js:13-19 | an overlapping cut with k up to len + 1 gives the windows |
| JsKmers.ProducedChunks | packages/freqgen-core/index.js:16-22 | a non-overlapping cut gives the chunks at multiples of k |
| JsKmers.ProducedRangeErrors | packages/freqgen-core/kmers.js:14 | the allocation throws RangeError exactly for an overlapping k above len + 1 or a non-overlapping k of 0 or less |
| JsKmers.ProducedDegenerate | index.js:10-16 | k = len + 1 gives no k-mers; k <= 0 gives len - k + 1 clamped pieces, empty for k = 0 |
| CoreKmers.Kmers | packages/freqgen-core/kmers.js:3-20 | the function computes its specification |
| CoreKmers.KmersFacts | packages/freqgen-core/kmers.js:3-20 | succeeds exactly for k >= 1 with an overlapping k up to len + 1 or a non-overlapping k dividing the length; windows or len/k chunks; every k-mer has length k |
| CoreKmers.KmersEdges | packages/freqgen-core/kmers.js:4-19 | an undefined k throws, and k = len + 1 gives [] |
| CoreKmers.KmersExampleOverlap | packages/freqgen-core/__tests__/kmers_test.js:11-14 | "GATTACA" with k = 2 gives its six windows |
| CoreKmers.KmersExampleChunks | packages/freqgen-core/kmers.js:8-19 | with `{overlap: false}` as an options object, "GATTACAT" is cut into its four 2-mers |
| CoreKmers.KmersExampleRemainder | packages/freqgen-core/kmers.js:3-12 | with `{overlap: false}` as an options object, "GATTACA" with k = 2 is rejected for its remainder; a positional `false` means `overlap = true` and gives the six windows |
| CoreKmers.KmerMap.constructor | packages/freqgen-core/kmers.js:23 | `new Map()` is empty |
| CoreKmers.KmerMap.Set | packages/freqgen-core/kmers.js:34 | an existing key keeps its place, and a new key goes last |
| CoreKmers.KmerCounts | packages/freqgen-core/kmers.js:22-37 | the counting loop returns a fresh Map holding the specified counts, or the specified error |
| CoreKmers.CountsSpecFacts | packages/freqgen-core/kmers.js:22-37 | succeeds exactly when all k-mers share one length; each distinct k-mer is a key once holding its count, and the counts sum to the number of k-mers |
| CoreKmers.CountsExamples | packages/freqgen-core/__tests__/kmerCounts_test.js:4-22 | the test cases, for the Map version: [] gives nothing, ["A"] and ["A","T"] count 1 each, ["A","A"] counts 2, and mixed lengths fail |
| CoreKmers.KmerFrequencies | packages/freqgen-core/kmers.js:39-57 | validation, then shares written in place: returns the same Map, or a fresh empty one for an empty Map under validation, which leaves the Map given untouched; a failure leaves the Map as it was |
| CoreKmers.FrequenciesFacts | packages/freqgen-core/kmers.js:44-56 | fails only under validation on a non-empty Map of mixed key lengths; otherwise keeps the keys, gives each count over the total, and sums to 1 |
| CoreKmers.MixedLengths | packages/freqgen-core/kmers.js:49 | the validator rejects a non-empty Map exactly when some key's length differs from the first key's |
| CoreKmers.FrequenciesExamples | packages/freqgen-core/__tests__/kmerFrequencies_test.js:9-27 | the test cases, this time for the Map version |
| CoreKmers.KmerFrequenciesFromSeq | packages/freqgen-core/kmers.js:60-80 | the request loop computes the specification |
| CoreKmers.FromSeqStep | packages/freqgen-core/kmers.js:62-78 | one more request extends the result or stops it |
| CoreKmers.FromSeqErrSticky | packages/freqgen-core/kmers.js:62-78 | once a request throws, later ones do not run |
| CoreKmers.CountedFrequencies | packages/freqgen-core/kmers.js:71-76 | counting k-mers of one length and normalising without validation gives each count over the number of k-mers |
| CoreKmers.RequestFrequenciesFacts | packages/freqgen-core/kmers.js:63-76 | a "codons" request uses non-overlapping 3-mers and needs a multiple of 3; each request's keys are its distinct k-mers, each holding its share, summing to 1 |
| CoreKmers.FromSeqOk | packages/freqgen-core/kmers.js:60-80 | fails exactly when some request's `kmers` call throws |
| CoreKmers.FromSeqKeys | packages/freqgen-core/kmers.js:63-70 | one key per distinct requested k, with "codons" stored under 3 |
| CoreKmers.FromSeqValues | packages/freqgen-core/kmers.js:69-77 | a key holds the frequencies of the last request stored under it |
| CoreKmers.FromSeqExample | packages/freqgen-core/__tests__/kmerFrequenciesFromSeq_test.js:13-19 | "ATGC" with k = 1 and 4: keys 1 and 4, the four bases at a quarter each, and "ATGC" at 1 |
| CoreIndex.Kmers | packages/freqgen-core/index.js:11-23 | the function computes its specification |
| CoreIndex.KmersFacts | packages/freqgen-core/index.js:11-23 | a missing or non-positive k throws; overlapping cuts are the windows, or a RangeError; non-overlapping cuts drop the remainder; agrees with kmers.js wherever kmers.js succeeds |
| CoreIndex.PositionalFalseOverlaps | packages/freqgen-core/index.js:11 | a positional `false` is not an options object, so the cut overlaps |
| CoreIndex.PositionalFalseExample | packages/freqgen-core/__tests__/kmers_test.js:33-36 | that call gives six windows, not three chunks |
| CoreIndex.KmerCounts | packages/freqgen-core/index.js:25-38 | for keys that are ordinary property names, the object loop computes what the Map-based `kmerCounts` computes |
| CoreIndex.KmerFrequencies | packages/freqgen-core/index.js:40-60 | the validation loop and `mapValues` compute the specification |
| CoreIndex.FrequenciesAgree | packages/freqgen-core/index.js:44-59 | the object version and the Map version of `kmerFrequencies` agree on every input, failure included |
| CoreIndex.FrequenciesValidationExample | packages/freqgen-core/__tests__/kmerFrequencies_test.js:21-27 | mixed lengths pass without validation and throw with it |
| LegacyIndex.Kmers | index.js:5-17 | the function computes its specification |
| LegacyIndex.KmersFacts | index.js:5-17 | only a missing k throws; windows for an overlapping k up to len + 1; chunks without the remainder for a positive non-overlapping k; otherwise a RangeError |
| LegacyIndex.KmersExampleOverlap | test/test_kmers.js:19-22 | the 3-mer windows of "GATTACA" |
| LegacyIndex.KmersExampleChunks | test/test_kmers.js:46-49 | the non-overlapping 3-mers of "GATTACA" |
| LegacyIndex.KmerCounts | index.js:19-27 | for keys that are ordinary property names, each distinct k-mer is a key once, in order of first occurrence, holding its count; the counts sum to the number of k-mers |
| LegacyIndex.KmerFrequencies | index.js:29-32 | the same keys, each value its share of the total, summing to 1 |
| LegacyIndex.CountsToFrequencies | index.js:19-32 | counting then normalising gives each k-mer its occurrences over the number of k-mers |
| GenerateJs.Generate | packages/freqgen-core/generate.js:16-45 | a non-string throws a TypeError without warning; a string warns exactly when every character is A, T, G or C, and the call returns exactly when every target entry is valid |
| GenerateJs.LooksLikeDna | packages/freqgen-core/generate.js:31-37 | true exactly when every character is A, T, G or C |
| GenerateJs.AsMap | packages/freqgen-core/generate.js:39-42 | a Map is kept as it is; a plain Object becomes a Map with string keys, in the order `Object.entries` lists them |
| GenerateJs.GenerateFacts | packages/freqgen-core/generate.js:31-45 | warns exactly on DNA-looking strings, the empty one included; returns exactly when every entry is valid, otherwise throws as the first bad entry does |
| GenerateJs.NonTextThrows | packages/freqgen-core/generate.js:31-33 | a non-string amino-acid argument throws a TypeError first |
| GenerateJs.BadTargetRejected | packages/freqgen-core/__tests__/generate_test.js:10-13 | that target, passed in declared order, fails validation |
| GenerateJs.NestedObjectThrows | packages/freqgen-core/generate.js:39-44 | an Object of Objects always throws a TypeError |
| GenerateJs.AsMapDeep | packages/freqgen-core/generate.js:39-42 | the deep conversion also turns inner Objects into Maps |
| GenerateJs.GenerateDeepFacts | packages/freqgen-core/generate.js:39-45 | with the deep conversion, a target passes exactly when each entry has one k-mer length and sums to 1; a Map of Maps is judged as before |
| GenerateJs.NestedObjectExample | packages/freqgen-core/generate.js:39-44 | `{1: {A: 0.5, T: 0.5}}` fails as written and passes with the deep conversion |
| OperatorsJs.SeedSteps | packages/freqgen-core/operators.js:45-47 | one piece per amino acid of the target |
| OperatorsJs.Seed | packages/freqgen-core/operators.js:42-50 | the loop computes the specification |
| OperatorsJs.SeedTranslates | packages/freqgen-core/operators.js:42-50 | succeeds exactly when every amino acid is encoded; gives `populationSize` copies of one DNA string, three letters per amino acid, translating back to the target |
| OperatorsJs.SeedPieceFacts | packages/freqgen-core/operators.js:46 | an amino acid's piece is its first codon, which exists exactly when some codon encodes it |
| OperatorsJs.SeedExample | packages/freqgen-core/__tests__/operators_test.js:4-9 | "FK" with a population of 2 gives two copies of "TTTAAA" |
| OperatorsJs.SliceIndex | packages/freqgen-core/operators.js:66-67 | `slice` keeps an in-range index and clamps any other into the string |
| OperatorsJs.Crossover | packages/freqgen-core/operators.js:63-70 | the two children's lengths add up to the parents' |
| OperatorsJs.CrossoverLetters | packages/freqgen-core/operators.js:63-70 | the children hold exactly the parents' letters, as a multiset |
| OperatorsJs.CrossoverCut | packages/freqgen-core/operators.js:64 | with at least two codons the cut is codon-aligned and strictly inside |
| OperatorsJs.CutAligned | packages/freqgen-core/operators.js:64-67 | wherever the draw falls, the cut is at a codon boundary |
| OperatorsJs.CrossoverChildren | packages/freqgen-core/operators.js:63-70 | children have the parents' length, and each position comes from one parent, swapped at the cut |
| OperatorsJs.CrossoverOneCodon | packages/freqgen-core/__tests__/operators_test.js:13-17 | one-codon parents come back as the same two strings |
| OperatorsJs.CrossoverTranslation | packages/freqgen-core/operators.js:63-70 | parents that encode the same protein have children that encode it |
| OperatorsJs.CrossoverExample | packages/freqgen-core/__tests__/operators_test.js:19-23 | "AAAAAA" and "TTTTTT" swap their second codons |
| OperatorsJs.FirstHit | packages/freqgen-core/operators.js:85-88 | the do-while stops at the first draw of a codon with synonyms |
| OperatorsJs.OtherThan | packages/freqgen-core/operators.js:90 | exactly the synonyms other than the codon |
| OperatorsJs.CodonsOfSeq | packages/freqgen-core/operators.js:73 | one codon per three letters |
| OperatorsJs.Drawn | packages/freqgen-core/operators.js:85-88 | the chosen index is a codon that has synonyms, with a fitting pick |
| OperatorsJs.Replacement | packages/freqgen-core/operators.js:91 | the picked choice, or "" for an empty choice list |
| OperatorsJs.CutIntoCodons | packages/freqgen-core/operators.js:73 | the cut throws unless the length is a multiple of 3, and otherwise gives the codons |
| OperatorsJs.Mutate | packages/freqgen-core/operators.js:72-93 | the cut, the fail-fast test, the draw loop and the join compute the specification |
| OperatorsJs.MutateErrors | packages/freqgen-core/operators.js:73-91 | throws on a partial codon; returns the input when no codon has synonyms; throws a TypeError exactly when the drawn codon has no synonym entry |
| OperatorsJs.JoinReplace | packages/freqgen-core/operators.js:91-92 | replacing one codon changes the join in that codon's letters only |
| OperatorsJs.JoinDrop | packages/freqgen-core/operators.js:91-92 | an undefined replacement shortens the join by one codon |
| OperatorsJs.CodonsOfSeqFacts | packages/freqgen-core/operators.js:73 | the codons are the string's triplets and join back to it |
| OperatorsJs.SubstituteOne | packages/freqgen-core/operators.js:90-92 | exactly the chosen codon is replaced, by one of its synonyms other than itself |
| OperatorsJs.MutateOneCodon | packages/freqgen-core/operators.js:82-92 | keeps the length and every codon except the drawn one, which has synonyms and becomes a different synonym |
| OperatorsJs.MutateDropsCodon | packages/freqgen-core/operators.js:90-92 | a drawn codon whose only synonym is itself, and that is missing from the no-synonym list, is dropped |
| OperatorsJs.SynonymsOfCodeAgree | packages/freqgen-core/operators.js:39 | the synonym table derived from a genetic code agrees with it |
| OperatorsJs.AgreeingSynonyms | packages/freqgen-core/operators.js:90 | an agreeing synonym is a triplet of the same amino acid |
| OperatorsJs.OneCodonTranslation | packages/freqgen-core/operators.js:91-92 | strings that differ only in one codon of the same amino acid translate alike |
| OperatorsJs.MutateTranslation | packages/freqgen-core/operators.js:72-93 | with agreeing synonyms, `mutate` succeeds and keeps the length and the translation |
| OperatorsJs.MutateExampleNoSynonym | packages/freqgen-core/__tests__/operators_test.js:38-40 | "ATG" comes back unchanged |
| OperatorsJs.MutateExampleOneSynonym | packages/freqgen-core/__tests__/operators_test.js:42-44 | "TGT" becomes "TGC" |

## Left out

- Command-line interfaces, file reading and writing, plotting, the interface
  state and the benchmark scripts are outside the core. YAML printing is out
  too.
- Fitness is not modelled. This covers the Jensen-Shannon fitness of
  freqgen/generate.py:91-95, `fitness` at
  packages/freqgen-core/operators.js:52-61 and the distances of distance.js,
  all of which are floating-point computations. The stopping rule takes the
  per-generation best fitnesses as a given list.
- Selection and next-generation logic live in the foreign pyeasyga
  `GeneticAlgorithm`. The `Optimizer.Derivation` datatype stands for any
  sequence of the modelled operators applied to the seed.
- Randomness: every draw is an index argument. The model states which
  indices are possible, never how likely they are. numpy's tolerance on
  weights summing to 1 is taken as exact equality.
- Genetic-code data (Biopython tables, CAI's `genetic_codes`, the YAML
  files loaded at packages/freqgen-core/operators.js:8-24) is a parameter.
  The stop-codon loop of freqgen/freqgen.py changes Biopython's
  `forward_table` in place; the model builds a fresh table.
- Float rounding: frequencies are exact reals. Float-only failures of the
  `!== 1` check are outside the model.
- KeyboardInterrupt, the `verbose` warning (packages/freqgen-core/index.js:54-56)
  and every print or warning are left out. An interrupt is modelled only as
  the list of generations running out.
- `mapDotProduct` is tested but never defined, so there is nothing to model.
- seqgen.py mixes tabs and spaces, which Python 3 rejects. The model follows
  the evident intent, with the `return` after the validation loop.
- `amino_acid_seq` of freqgen/freqgen.py:33-63 is the loop of seqgen.py's
  `amino_acid_seq`, with a different message. `Seqgen.AminoAcidSeq` stands
  for both.
- The options argument of packages/freqgen-core/generate.js is unused and
  not modelled.
- JavaScript arguments of the wrong type are not modelled, except where the
  source's own tests pass them: a non-string amino-acid argument, a
  positional `false`, and null options.
- OperatorsJs.Crossover: when the parent length is not a multiple of 3,
  lodash's `random` gets float bounds. The model requires a draw that is an
  integer in range, so it does not capture lodash's float draws.
- Optimizer.Mutate: the retry loop of freqgen/generate.py:101-110 never
  ends when no codon has another synonym. The method therefore requires a
  list of draws that contains a stopping one. `Optimizer.NoSynonymsNeverHalts`
  shows the other case never stops. This also excludes the empty
  individual, on which `np.random.randint(0)` raises ValueError.
- OperatorsJs.Mutate: likewise, the do-while of
  packages/freqgen-core/operators.js:85-88 is given draws that include a
  codon with synonyms.
- LegacyIndex.Kmers: with a negative k and no overlap on the empty string,
  the loop of index.js:10-16 never ends. The method excludes that case.
- LegacyIndex.KmerFrequencies: a non-empty object whose values sum to 0
  makes index.js:58-59 divide by zero. In JavaScript that gives NaN for a
  zero value and Infinity or -Infinity for any other (`{A: 1, T: -1}`).
  The function requires a non-zero total there.
- CoreKmers.KmerFrequencies: the same zero-total case of
  packages/freqgen-core/kmers.js:52-54 (NaN or Infinity or -Infinity) is
  excluded by its precondition.
- CoreIndex.KmerFrequencies: the same zero-total case (NaN or Infinity or
  -Infinity) is excluded by its precondition. Its keys are also taken to be ordinary property names, as
  for `kmerCounts` below.
- Encoding.DnaToVector: follows numpy 2, where `binary_repr(x, width=2)`
  raises ValueError for the digits 4-9. Under numpy 1.x it warns and
  returns three or four bits, so `dna_to_vector("4")` is `[1, 0, 0]`; that
  behaviour is not modelled. Non-ASCII digits are treated as characters
  `astype(int)` cannot convert.
- Dna.Upper: models `str.upper` on ASCII text only. Python's Unicode
  upper-casing can change the length (`ß` becomes `SS`) after the length
  check of freqgen/freqgen.py:193-195, and changes letters such as `é`.
  Neither is modelled, so `FreqgenEngine.CodonFrequencies` and the k-mer
  path are exact only for ASCII input.
- CoreIndex.KmerCounts: the plain object `counts` is modelled in insertion
  order with `counts[kmer] || 0` reading only its own entries. JavaScript
  lists array-index keys ("1", "2") first in ascending order, and an
  inherited name (`constructor`, `toString`) makes `counts[kmer]` a
  function, while `__proto__` is not stored at all. Such keys are not
  modelled; DNA k-mers are never one of them.
- LegacyIndex.KmerCounts: the same plain-object key rules of index.js:19-27
  are not modelled, for the same reason.
- GenerateJs.AsMap: an Object target is given as the list `Object.entries`
  returns, in JavaScript enumeration order: array-index keys such as "1"
  and "2" ascending, then the other keys in the order they were added. The
  model does not derive that order from how the Object was built. So the
  "first bad entry" of `GenerateJs.GenerateFacts` is JavaScript's only
  when `o` is listed that way.
- JsKmers.FillKmers: JavaScript's `length` and `substring`
  (packages/freqgen-core/kmers.js:13-17) count UTF-16 code units, while a
  Dafny string is a sequence of characters. For text outside the Basic
  Multilingual Plane (`"𝔸".length` is 2) the source's lengths and k-mers
  differ from the model's. DNA is ASCII, so they agree there.
- CoreKmers.Kmers: the same UTF-16 counting is not modelled.
- CoreIndex.Kmers: the same UTF-16 counting of
  packages/freqgen-core/index.js:16-22 is not modelled.
- LegacyIndex.Kmers: the same UTF-16 counting of index.js:10-16 is not
  modelled either.
- LegacyFreqgen.TranslateSpec: the ValueError of freqgen.py:251 has two
  arguments, the text and the offending base. The model keeps one string,
  the text followed by the base; Python's tuple rendering of the two is not
  modelled. Likewise a KeyError holds the missing key as plain text, not
  its `repr` with quotes.
- LegacyFreqgen.IsliceStop: takes `sys.maxsize` to be 2^63 - 1, as on a
  64-bit CPython; a 32-bit build's bound of 2^31 - 1 is not modelled.

## Findings

| source | as written | input that shows it | evidently intended | confidence | as-written member | corrected member |
|---|---|---|---|---|---|---|
| packages/freqgen-core/generate.js:39-44 | only the outer plain Object becomes a Map; its inner Objects have no `keys` method, so validation throws a TypeError | `{1: {A: 0.5, T: 0.5}}` | convert the inner Objects to Maps as well, so that an Object target does not break, as the comment at line 39 wants, and a well-formed Object of Objects passes | medium, not executed | GenerateJs.NestedObjectThrows | GenerateJs.GenerateDeepFacts |
