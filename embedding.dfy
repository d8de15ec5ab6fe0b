/**
 * The embedding engine (`kNNEmbeddingEngine`) as the classification loop sees
 * it. Its implementation is not part of this model: it is an example store
 * with `clear`, `addEmbedding` and `exampleCount`, an opaque feature extractor
 * `DetectWithImage`, and an opaque nearest-neighbour vote `kNNEmbedding`.
 */
module Embedding {
  import opened Options

  /** A camera frame: the bytes of an RGB raster. */
  type Image = seq<int>

  /** The feature vector the model computes for a frame. */
  type Embedding = seq<real>

  /** A class label, or `None` while there is nothing to vote with. */
  type Label = Option<nat>

  /** One learned example: an embedding and the class it was taught as. */
  datatype Example = Example(embedding: Embedding, classId: nat)

  /** `l` is no label, or the label of one of the stored examples. */
  predicate LabelAmong(l: Label, examples: seq<Example>)
  {
    l.None? || exists i | 0 <= i < |examples| :: examples[i].classId == l.value
  }

  /**
   * A nearest-neighbour vote answers with no label or with the label of one of
   * the examples it voted over; which one is left open.
   */
  type Classifier = f: (seq<Example>, Embedding) -> Label | forall ex, e :: LabelAmong(f(ex, e), ex)
    witness (ex: seq<Example>, e: Embedding) => None

  class EmbeddingEngine {
    /** The feature extractor of the loaded model (`DetectWithImage`). */
    const detect: Image -> Embedding
    /** The nearest-neighbour vote over the stored examples (`kNNEmbedding`). */
    const knn: Classifier
    /** The learned examples, in the order they were added. */
    var examples: seq<Example>

    /** A fresh engine holds no examples. */
    constructor (detect: Image -> Embedding, knn: Classifier)
      ensures this.detect == detect && this.knn == knn
      ensures examples == []
    {
      this.detect := detect;
      this.knn := knn;
      examples := [];
    }

    /** The embedding of a frame. */
    method DetectWithImage(img: Image) returns (emb: Embedding)
      ensures emb == detect(img)
    {
      emb := detect(img);
    }

    /** The nearest-neighbour label of `emb`: none, or a label some example has. */
    method KnnEmbedding(emb: Embedding) returns (l: Label)
      ensures l == knn(examples, emb)
      ensures LabelAmong(l, examples)
    {
      l := knn(examples, emb);
    }

    /** Forgets every example. */
    method Clear()
      modifies this
      ensures examples == []
    {
      examples := [];
    }

    /** Stores `emb` as one more example of class `classId`. */
    method AddEmbedding(emb: Embedding, classId: nat)
      modifies this
      ensures examples == old(examples) + [Example(emb, classId)]
    {
      examples := examples + [Example(emb, classId)];
    }

    /** How many examples are stored. */
    method ExampleCount() returns (n: nat)
      ensures n == |examples|
    {
      n := |examples|;
    }
  }
}
