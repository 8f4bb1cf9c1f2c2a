/**
 * The todo record both tiers exchange as JSON: an id, the owner's name, whether
 * it is finished, its text and its category.
 */
module Todos {

  /** A todo; `id` is the hexadecimal text of its database object id. */
  datatype Todo = Todo(id: string, owner: string, status: bool, body: string, category: string)
}
