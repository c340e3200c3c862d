/** The record every page and the store work with. */
module Cards {

  datatype Option<T> = None | Some(value: T)

  /** A character card. The declared interface has no `tags`, but every
      page reads and writes a list of tags, so it is part of the record.
      `createdAt` is the epoch-millisecond timestamp of creation. */
  datatype Card = Card(
    id: string,
    name: string,
    photo: string,
    gender: string,
    birthday: string,
    height: string,
    weight: string,
    eyeColor: string,
    hairStyle: string,
    tags: seq<string>,
    personality: string,
    hobbies: string,
    others: string,
    createdAt: int)
}
