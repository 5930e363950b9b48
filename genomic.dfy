/** The genomic values the readers are asked about. */
module Genomic {

  /** A chromosome, identified by its name (`chr1`, `chrX`, ...). */
  type Chromosome = string

  /** A 1-based, end-inclusive stretch of one chromosome. */
  datatype Region = Region(chr: Chromosome, start: int, end: int)

  /** The strand a read was mapped to. */
  datatype Strand = Sense | Antisense | Unknown

  /** A genome assembly, by name. */
  datatype Genome = Genome(name: string)
}
