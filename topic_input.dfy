/**
 * The topic field of the filter form: text typed into the input becomes
 * a topic badge on Enter or ','; clicking a badge removes the topic.  The
 * topics belong to the form and reach the field through its props; they
 * are a field here that the handlers rewrite, standing for the form's
 * state after the callback.
 */
module TopicInput {
  import Seqs
  import Text

  function Itself(s: string): string
  {
    s
  }

  /** The keys that commit the input. */
  predicate IsCommitKey(key: string)
  {
    key == "Enter" || key == ","
  }

  class TopicField {
    /** The `inputValue` state. */
    var inputValue: string
    /** The form's topics. */
    var topics: seq<string>

    /** Topics are distinct, non-empty and carry no outer whitespace. */
    predicate Valid()
      reads this
    {
      && Seqs.KeysDistinct(topics, Itself)
      && forall i :: 0 <= i < |topics| ==> topics[i] != "" && Text.Trim(topics[i]) == topics[i]
    }

    constructor(topics: seq<string>)
      requires Seqs.KeysDistinct(topics, Itself)
      requires forall i :: 0 <= i < |topics| ==> topics[i] != "" && Text.Trim(topics[i]) == topics[i]
      ensures Valid()
      ensures inputValue == "" && this.topics == topics
    {
      inputValue := "";
      this.topics := topics;
    }

    /** The input's `onChange`. */
    method SetInput(value: string)
      modifies this
      ensures inputValue == value && topics == old(topics)
    {
      inputValue := value;
    }

    /**
     * `handleKeyDown`: on a commit key, the trimmed input is appended and
     * the input cleared, unless it is empty or already a topic; then, and
     * for every other key, nothing changes.
     */
    method HandleKeyDown(key: string)
      requires Valid()
      modifies this
      ensures Valid()
      ensures var topic := Text.Trim(old(inputValue));
        if IsCommitKey(key) && topic != "" && topic !in old(topics) then
          topics == old(topics) + [topic] && inputValue == ""
        else
          topics == old(topics) && inputValue == old(inputValue)
    {
      if IsCommitKey(key) {
        var newTopic := Text.Trim(inputValue);
        if newTopic != "" && newTopic !in topics {
          Text.TrimIdempotent(inputValue);
          ghost var before := topics;
          topics := topics + [newTopic];
          assert forall i :: 0 <= i < |before| ==> topics[i] == before[i];
          inputValue := "";
        }
      }
    }

    /** `removeTopic`: every occurrence goes, the others keep their order. */
    method RemoveTopic(topic: string)
      requires Valid()
      modifies this
      ensures Valid()
      ensures topics == Seqs.Filter(old(topics), t => t != topic)
      ensures topic !in topics && forall t :: t in old(topics) && t != topic ==> t in topics
      ensures inputValue == old(inputValue)
    {
      ghost var before := topics;
      Seqs.FilterKeysDistinct(topics, t => t != topic, Itself);
      topics := Seqs.Filter(topics, t => t != topic);
      forall i | 0 <= i < |topics| ensures topics[i] != "" && Text.Trim(topics[i]) == topics[i] {
        assert topics[i] in before;
      }
    }
  }
}
